# Verified models of the script library

Six parts of the library do not depend on devices: the exact algebra of `qjscalc.js`, the
streaming XML parser `sax.js`, the POSIX paths of `path.js`, the JSON-RPC session and framing
of `jsonrpc.js`, the settings files of `config.js` and the listener lists of
`event-target.js`. This project models each of them in Dafny, branch by branch, and proves
what each is for, on all inputs and in all runs.

`dafny verify dfyconfig.toml` checks everything.

- **Integers** (`Arithmetic`, `Fermat`, `ModularPower`, `SmallPrimes`, `Primality`): greatest
  common divisors, modular inverses, the two binary powers, Miller-Rabin, factoring. Fermat's
  little theorem and the square roots of 1 modulo a prime are proved on the way.
- **Matrices** (`Fields`, `Determinant`, `Elimination`, `Inversion`, `Kernel`): Gaussian
  elimination in place over any field, against the Laplace expansion of the determinant, the
  matrix product and the null space.
- **Fractions, polynomials, series** (`Fractions`, `Powers`, `Polynomials`, `PolynomialGcd`,
  `PolynomialInverse`, `TruncatedSeries`): coefficient arrays against the ring of formal power
  series.
- **XML** (`SaxState`, `SaxWrite`, `SaxNesting`, `SaxMarkup`, `SaxDocument`, `SaxErrors`,
  `SaxLoose`): one function for each state of the parser, the method `write` with its fast loop
  over plain text, the parsing of whole documents back to the events of their tree, the
  characters that are errors, and what the loose mode makes of them.
- **Paths** (`PathSegments`, `Paths`, `RelativePaths`): character scans against a fold over
  segments with a stack.
- **JSON-RPC** (`JsonrpcSession`, `JsonrpcProgress`, `JsonrpcTimeouts`, `JsonrpcObject`,
  `Hexadecimal`, `Framing`): the request lifecycle as steps between awaits, in any order, with
  the times of the calls; the length-prefixed frames as a stream in any chunks.
- **Settings** (`ConfigText`, `ConfigFile`): printing under section headers and parsing back,
  with the escapes of section 7 of RFC 8259.
- **Listeners** (`ListenerLists`, `ListenerTarget`): linked lists on the heap against sequences.

Where a module has both, a class or method follows the program and is proved against
functions that say what is meant; the lemmas are about those functions.

## What turned out not to hold

- `Integer.invmod` refuses every negative argument, although there is an inverse for every
  coprime one (`ModularPower.InvMod`, `ModularPower.InverseExists`); -1 modulo 5 is one
  (`ModularPower.InvModRefusesInvertible`).
- `Polynomial.invmod` does not scale its answer: for coprime polynomials it is an inverse
  exactly when the last remainder of Euclid's algorithm is 1
  (`PolynomialInverse.InverseWhenOne`); invmod(2, X) is 1 (`PolynomialInverse.TwoModuloX`).
- `posix.resolve` drops a trailing slash, so that it restores the text of a normalized path
  exactly when that has none or is the root (`RelativePaths.AbsoluteRoundTrip`); "/a/" comes
  back as "/a" (`RelativePaths.TrailingSlashLost`).
- In strict mode `write` refuses to go on after an error, so cutting a document in chunks
  matters exactly when an error is pending before the last chunk
  (`SaxNesting.ChunkIndependence`); "xy" cut in two is refused (`SaxNesting.CutAfterError`).
- Text before an entity is sent out and kept as well exactly in strict mode, for an unknown
  entity, where the text options leave something (`SaxNesting.StrictEntityRepeatsText`); so x
  is sent twice for `<a>x&y;</a>` (`SaxDocument.TextSentTwice`).
- In loose mode a comment with two hyphens in a row is sent in two parts
  (`SaxMarkup.DoubleHyphen`), where the comment in the source promises one.
- A quote in a markup declaration swallows the rest of the document (`SaxMarkup.QuoteSwallows`).
- A loose attribute without a value has its name as value at the end of the tag, but no value,
  and its name as it is written, before white space (`SaxDocument.BareAtEnd`,
  `SaxDocument.BareThenMore`). A script loses the character after something that looks like an
  end tag (`SaxLoose.ScriptKeepsEnd`), and a tag the one after a slash (`SaxLoose.SlashSkipped`).
- `close` leaves requests pending in a session that is CLOSED already and has no socket
  (`JsonrpcSession.CloseSettlesAll`, `JsonrpcSession.CloseCanLeavePending`).
- Frames are lost exactly when a chunk takes the read buffer over the limit
  (`Framing.WholeDelivery`), as two messages of 40000 characters in one chunk do
  (`Framing.LongChunkLost`).
- Printed settings are read back unchanged exactly when no key is under the empty section
  name, which takes off the dot that the key begins with (`ConfigFile.PrintParse`); ".a" comes
  back as "a" (`ConfigFile.LeadingDotLost`).
- The listener of an event attribute is called exactly when its entry is reached and it is a
  function (`ListenerLists.AttributeCalled`), so that an object with handleEvent is called when
  it is added and not when it is set (`ListenerLists.ObjectAttributeIgnored`).

## Model

| member | source | states |
|---|---|---|
| `Arithmetic.GcdDivides` | core/deps/quickjs/qjscalc.js:194-206 | what the loop of gcd computes divides both arguments |
| `Arithmetic.GcdGreatest` | core/deps/quickjs/qjscalc.js:194-206 | every common divisor divides it |
| `Arithmetic.CoprimeBezout` | core/deps/quickjs/qjscalc.js:217-236 | coprime numbers have a combination equal to 1, which is what invmod looks for |
| `Arithmetic.PrimeDividesProduct` | core/deps/quickjs/qjscalc.js:127-152 | a prime that divides a product divides a factor, behind the primality test |
| `Fermat.FallingProduct` | core/deps/quickjs/qjscalc.js:207-215 | k! times the entry of Pascal's triangle is the falling product that comb divides |
| `Fermat.PrimeDividesBinomial` | core/deps/quickjs/qjscalc.js:127-152 | a prime divides the inner binomial coefficients of its row |
| `Fermat.FermatLittle` | core/deps/quickjs/qjscalc.js:127-152 | a^(p-1) is 1 modulo a prime p that does not divide a |
| `Fermat.SquareRootOfOne` | core/deps/quickjs/qjscalc.js:127-152 | the only square roots of 1 modulo a prime are 1 and -1 |
| `ModularPower.ComputeGcd` | core/deps/quickjs/qjscalc.js:194-206 | the loop of Euclidean remainders returns the gcd |
| `ModularPower.InvMod` | core/deps/quickjs/qjscalc.js:217-236 | returns an inverse below the modulus exactly for coprime arguments that are not negative, and throws for all others |
| `ModularPower.InverseExists` | core/deps/quickjs/qjscalc.js:217-236 | an inverse below the modulus exists exactly for coprime arguments, of either sign |
| `ModularPower.InvModRefusesInvertible` | core/deps/quickjs/qjscalc.js:217-236 | -1 has an inverse modulo 5, while InvMod throws for every negative argument |
| `ModularPower.InverseUnique` | core/deps/quickjs/qjscalc.js:217-236 | inverses below the modulus are unique |
| `ModularPower.PowCoprime` | core/deps/quickjs/qjscalc.js:238-257 | a power is invertible exactly when its base is |
| `ModularPower.PMod` | core/deps/quickjs/qjscalc.js:238-257 | the bottom-up power is the power modulo m; for a negative exponent the inverse of the power, or an exception exactly when the base is not invertible |
| `ModularPower.InverseMod` | core/deps/quickjs/qjscalc.js:923-930 | the inverse of a Mod value, or an exception exactly when there is none |
| `ModularPower.GenericPow` | core/deps/quickjs/qjscalc.js:93-123 | the top-down power of a Mod value meets the same specification as pmod, with the number 1 for exponent 0 |
| `ModularPower.PowerUnique` | core/deps/quickjs/qjscalc.js:93-123 | that specification leaves one answer, so generic_pow and pmod agree and throw together |
| `ModularPower.InversePowerAgrees` | core/deps/quickjs/qjscalc.js:238-257 | inverting after the power equals powering the inverse |
| `SmallPrimes.SmallPrimesExact` | core/deps/quickjs/qjscalc.js:125-125 | the table is increasing and lists exactly the primes up to its last entry, 499 |
| `Primality.PrimeIsStrongProbable` | core/deps/quickjs/qjscalc.js:127-152 | a prime passes the Miller-Rabin condition to every base that it does not divide |
| `Primality.MillerRabinRound` | core/deps/quickjs/qjscalc.js:138-149 | one turn of the outer loop decides whether the repeated squares meet 1 at the start or -1 in time |
| `Primality.MillerRabinTest` | core/deps/quickjs/qjscalc.js:127-152 | the test accepts exactly the numbers that pass to each of the first t bases |
| `Primality.IsPrime` | core/deps/quickjs/qjscalc.js:261-283 | trial division, then the bound 499 squared, then the test |
| `Primality.IsPrimeNeverRejects` | core/deps/quickjs/qjscalc.js:261-283 | no prime is ever rejected, whatever the number of rounds |
| `Primality.IsPrimeExact` | core/deps/quickjs/qjscalc.js:261-283 | below 499 squared the answer is exact |
| `Primality.IsPrimeInteger` | core/deps/quickjs/qjscalc.js:261-283 | over the table of the source: below 499 squared the answer is exact; from there on it is yes exactly when no table prime divides n and, for each of the first t table primes a, a^d is 1 or some a^(d * 2^i) with i < s is -1 modulo n, where n - 1 is d * 2^s; then a^(n-1) is 1 for each of them |
| `Primality.AnswerIsPowers` | core/deps/quickjs/qjscalc.js:127-152 | that condition for any exact table, any n and any number of rounds |
| `Primality.StrongIsFermat` | core/deps/quickjs/qjscalc.js:127-152 | a number that passes to base a passes the test of Fermat's theorem to it |
| `Primality.RejectsProduct` | core/deps/quickjs/qjscalc.js:261-283 | isPrime rejects 256027, which is 503 * 509 |
| `Primality.FactorPositive` | core/deps/quickjs/qjscalc.js:309-333 | terminates; the factors multiply back, do not decrease, and all but a last one that isPrime accepts are prime |
| `Primality.Factor` | core/deps/quickjs/qjscalc.js:295-334 | the same for every integer, after an optional -1; -1, 0 and 1 are left as they are |
| `Primality.SmallFactorsPrime` | core/deps/quickjs/qjscalc.js:295-334 | below 499 squared every factor is prime |
| `Primality.FactorsUnique` | core/deps/quickjs/qjscalc.js:295-334 | a number has one list of prime factors in order, so that factor leaves no choice where its factors are prime |
| `Primality.FactorsProduct` | core/deps/quickjs/qjscalc.js:295-334 | factor gives 503 and 509 for 256027 |
| `Primality.FactRec` | core/deps/quickjs/qjscalc.js:154-167 | splitting in halves multiplies all numbers from a to b |
| `Primality.Comb` | core/deps/quickjs/qjscalc.js:207-215 | comb is Pascal's triangle, zero outside of it |
| `Fractions.LowestTerms` | core/deps/quickjs/qjscalc.js:380-409 | dividing by the gcd leaves lowest terms |
| `Fractions.MakeValue` | core/deps/quickjs/qjscalc.js:380-409 | the constructor keeps the value of the quotient |
| `Fractions.ValueInjective` | core/deps/quickjs/qjscalc.js:435-440 | fractions in lowest terms are equal when their values are, which comparing both parts relies on |
| `Fractions.AddExact` | core/deps/quickjs/qjscalc.js:410-414 | addition is exact |
| `Fractions.SubExact` | core/deps/quickjs/qjscalc.js:415-419 | subtraction is exact |
| `Fractions.MulExact` | core/deps/quickjs/qjscalc.js:420-424 | multiplication is exact |
| `Fractions.DivExact` | core/deps/quickjs/qjscalc.js:425-429 | division is exact and throws exactly for the divisor 0 |
| `Fractions.LessExact` | core/deps/quickjs/qjscalc.js:441-447 | the order of fractions is that of their values |
| `Fractions.FractionsAreAField` | core/deps/quickjs/qjscalc.js:410-447 | fractions meet the laws of the coefficients below |
| `Determinant.DetLinear` | core/deps/quickjs/qjscalc.js:2003-2036 | the Laplace expansion is linear in each row |
| `Determinant.DetSwap` | core/deps/quickjs/qjscalc.js:2016-2023 | exchanging two rows changes its sign |
| `Determinant.DetEliminate` | core/deps/quickjs/qjscalc.js:2024-2030 | subtracting a multiple of another row leaves it |
| `Determinant.DetNoPivot` | core/deps/quickjs/qjscalc.js:2010-2015 | it is 0 when a triangular part is followed by a column without pivot |
| `Determinant.DetTriangular` | core/deps/quickjs/qjscalc.js:2032-2035 | for a triangular matrix it is the product of the diagonal |
| `Elimination.SwapEntries` | core/deps/quickjs/qjscalc.js:2017-2021 | the exchange entry by entry swaps the rows and leaves the others |
| `Elimination.SubtractRow` | core/deps/quickjs/qjscalc.js:2067-2073 | subtracting from a later column on is subtracting the whole row, where the row is zero before |
| `Elimination.ComputeDet` | core/deps/quickjs/qjscalc.js:2003-2036 | det by elimination, with its early return, is the Laplace determinant of every matrix over a field |
| `Inversion.LinkedEliminate` | core/deps/quickjs/qjscalc.js:2065-2075 | dst times a stays src through an elimination, and so do the null space and the vanishing of the determinant |
| `Inversion.NoPivotSingular` | core/deps/quickjs/qjscalc.js:2043-2048 | a missing pivot shows a nonzero vector that a maps to zero |
| `Inversion.ComputeInverse` | core/deps/quickjs/qjscalc.js:2037-2078 | the answer times a is the identity; it throws exactly when a is singular, which is exactly when its determinant is 0 |
| `Kernel.ReducedExtend` | core/deps/quickjs/qjscalc.js:2131-2164 | a column without a pivot, or a cleared pivot column, extends the reduced form |
| `Kernel.KernelIndependent` | core/deps/quickjs/qjscalc.js:2167-2192 | the columns of the answer are independent |
| `Kernel.KernelSpans` | core/deps/quickjs/qjscalc.js:2167-2192 | every null vector is a combination of them |
| `Kernel.ReadOffIsBasis` | core/deps/quickjs/qjscalc.js:2167-2192 | what is read off the reduced matrix is a basis of the null space of a |
| `Kernel.ComputeKernel` | core/deps/quickjs/qjscalc.js:2120-2193 | ker returns a basis of the null space, with as many columns as a has without a pivot |
| `Powers.ConvAssoc` | core/deps/quickjs/qjscalc.js:1201-1217 | the product of coefficient lists is associative, at each power of X |
| `Powers.ConvTop` | core/deps/quickjs/qjscalc.js:1201-1217 | the leading coefficient of a product is the product of the leading ones |
| `Powers.PowersAreARing` | core/deps/quickjs/qjscalc.js:1180-1217 | sum and product of coefficient lists obey the laws of a commutative ring |
| `Polynomials.MakePolynomial` | core/deps/quickjs/qjscalc.js:951-969 | trimming keeps the polynomial and leaves no leading zero |
| `Polynomials.TrimmedUnique` | core/deps/quickjs/qjscalc.js:1229-1239 | trimmed arrays are equal when they stand for the same polynomial |
| `Polynomials.Add` | core/deps/quickjs/qjscalc.js:1180-1197 | polynomial_add is the sum, trimmed |
| `Polynomials.Mul` | core/deps/quickjs/qjscalc.js:1201-1217 | polynomial_mul is the product, trimmed |
| `Polynomials.DivRem` | core/deps/quickjs/qjscalc.js:1279-1305 | a == q * b + r with deg r < deg b; throws exactly for b == 0 |
| `PolynomialGcd.DividedUnique` | core/deps/quickjs/qjscalc.js:1279-1305 | quotient and remainder are the only ones |
| `PolynomialGcd.RemainderDivisors` | core/deps/quickjs/qjscalc.js:1306-1315 | a and b have the same common divisors as b and the remainder |
| `PolynomialGcd.ProductDegree` | core/deps/quickjs/qjscalc.js:1130-1135 | the degree of a product is the sum of the degrees |
| `PolynomialGcd.Gcd` | core/deps/quickjs/qjscalc.js:1306-1315 | terminates with a monic common divisor that every common divisor divides; throws exactly when both are 0 |
| `PolynomialGcd.GcdUnique` | core/deps/quickjs/qjscalc.js:1306-1315 | there is no other greatest common divisor with leading coefficient 1 |
| `PolynomialGcd.DivisionExists` | core/deps/quickjs/qjscalc.js:1279-1305 | every polynomial has a quotient and a remainder by one that is not 0 |
| `PolynomialInverse.CombinationStep` | core/deps/quickjs/qjscalc.js:1322-1329 | each turn keeps c and a multipliers of x for u and v, modulo y |
| `PolynomialInverse.LastRemainderDivisors` | core/deps/quickjs/qjscalc.js:1322-1331 | the divisors of Euclid's last remainder are the common divisors, which makes it the gcd up to a constant |
| `PolynomialInverse.CoprimeWhen` | core/deps/quickjs/qjscalc.js:1331-1333 | x and y are coprime exactly when the last remainder has degree 0 |
| `PolynomialInverse.InvMod` | core/deps/quickjs/qjscalc.js:1316-1335 | x times the answer is the last remainder, a constant, modulo y, and the answer is of lower degree than y; throws exactly when y is 0 or shares a divisor with x |
| `PolynomialInverse.AnswerUnique` | core/deps/quickjs/qjscalc.js:1334-1334 | no other polynomial of lower degree is such an answer |
| `PolynomialInverse.InverseWhenOne` | core/deps/quickjs/qjscalc.js:1316-1335 | for coprime x and y, y of degree above 0, the answer is an inverse exactly when the last remainder is 1 |
| `PolynomialInverse.ConstantAnswer` | core/deps/quickjs/qjscalc.js:1316-1335 | the answer for a constant is 1, whatever the constant |
| `PolynomialInverse.TwoModuloX` | core/deps/quickjs/qjscalc.js:1316-1335 | with rational coefficients the answer for 2 modulo X is 1, which is no inverse |
| `TruncatedSeries.ProductSound` | core/deps/quickjs/qjscalc.js:1651-1669 | if full Laurent series agree with the factors up to their O-terms, their product agrees with the terms computed |
| `TruncatedSeries.Trim` | core/deps/quickjs/qjscalc.js:1756-1769 | trim removes leading zeros and stands for the same full series |
| `TruncatedSeries.SeriesMul` | core/deps/quickjs/qjscalc.js:1651-1669 | series_mul is sound, with as many terms as the shorter factor before trimming |
| `TruncatedSeries.Inverse` | core/deps/quickjs/qjscalc.js:1739-1754 | the terms invert those of v as far as they go; throws exactly without terms or with a zero leading one |
| `TruncatedSeries.InverseSound` | core/deps/quickjs/qjscalc.js:1739-1754 | the inverse of any full series that agrees with v agrees with the answer |
| `TruncatedSeries.InverseTimes` | core/deps/quickjs/qjscalc.js:1739-1754 | v times its inverse is 1 + O(X^n) for v of n terms |
| `SaxWrite.RunAppend` | app/modules/utils/sax.js:973-1517 | running over two texts in turn is running over both together |
| `SaxWrite.PlainRun` | app/modules/utils/sax.js:1021-1051 | plain text goes to the text buffer as a whole |
| `SaxWrite.SaxParser.Write` | app/modules/utils/sax.js:973-1517 | write, with its fast loop, does what one step for each character does; it throws exactly when an error is pending, and changes nothing then |
| `SaxNesting.OpenTheTagKeeps` | app/modules/utils/sax.js:769-846 | opening a tag puts its name on the stack as its event says |
| `SaxNesting.CloseNamedKeeps` | app/modules/utils/sax.js:848-917 | closing pops down to the match, with one event for each name popped |
| `SaxNesting.StepGood` | app/modules/utils/sax.js:973-1517 | every character in every state keeps events and stack together |
| `SaxNesting.TagsAreNested` | app/modules/utils/sax.js:769-917 | in every run the events replay to a properly nested stack, which is the list of opened and unclosed names (section 3.1 of XML 1.0) |
| `SaxNesting.SelfClosingKeepsStack` | app/modules/utils/sax.js:1298-1306 | a self-closing tag leaves the stack as it was |
| `SaxNesting.UnmatchedClosesNothing` | app/modules/utils/sax.js:885-891 | an end tag without an open element pops nothing |
| `SaxNesting.ChunkIndependence` | app/modules/utils/sax.js:973-981 | any split into chunks gives the same events and the same state as the whole; writing is refused exactly when an error was pending before the last chunk |
| `SaxNesting.LooseChunks` | app/modules/utils/sax.js:652-663 | in loose mode no split is refused |
| `SaxNesting.CutAfterError` | app/modules/utils/sax.js:973-981 | "x" and then "y" is refused in strict mode, while "xy" is read |
| `SaxNesting.StrictEntityRepeatsText` | app/modules/utils/sax.js:919-950 | at the end of an entity in text, the text before it goes out and is kept as well exactly in strict mode, for an unknown entity, where the text options leave something of it |
| `SaxNesting.UnknownEntity` | app/modules/utils/sax.js:919-950 | then the text and an error go out, and the text is kept with the entity as it was written |
| `SaxMarkup.CommentRead` | app/modules/utils/sax.js:1179-1211 | a comment sends its text, after the text options, unless they leave nothing |
| `SaxMarkup.DoubleHyphen` | app/modules/utils/sax.js:1201-1212 | in loose mode two hyphens in a comment send what is before them at once, and the rest with them |
| `SaxMarkup.CDataRead` | app/modules/utils/sax.js:1213-1245 | a CDATA section sends its start, its text as it stands unless it is empty, and its end, for every text without "]]>" |
| `SaxMarkup.InstructionRead` | app/modules/utils/sax.js:1246-1278 | a processing instruction sends its target and its body |
| `SaxMarkup.TargetRead` | app/modules/utils/sax.js:1246-1278 | so does one without a body |
| `SaxMarkup.DoctypeRead` | app/modules/utils/sax.js:1137-1178 | the document type sends its text; brackets and quotes protect a ">" |
| `SaxMarkup.DeclarationRead` | app/modules/utils/sax.js:1099-1128 | any other declaration without quotes sends its text |
| `SaxMarkup.QuoteSwallows` | app/modules/utils/sax.js:1129-1136 | after a quote in a declaration nothing more is sent |
| `SaxDocument.AttributesRun` | app/modules/utils/sax.js:1280-1410 | attributes in double quotes, in single quotes or, in loose mode, in none are read one after the other, each with its event, value and place in the tag, its name in the case of the parser |
| `SaxDocument.EscapedRun` | app/modules/utils/sax.js:919-950 | text with the five characters of XML escaped is taken in as the text itself, between tags, between quotes of either kind and without quotes |
| `SaxDocument.EmptyTagEnd` | app/modules/utils/sax.js:1298-1306 | a self-closing tag opens and closes its element |
| `SaxDocument.EndTagRun` | app/modules/utils/sax.js:1429-1457 | an end tag closes the innermost element, in either case map |
| `SaxDocument.AroundEquals` | app/modules/utils/sax.js:1325-1380 | white space around the equals sign is skipped |
| `SaxDocument.BareAtEnd` | app/modules/utils/sax.js:1325-1341 | a loose attribute without a value at the end of a tag has its name as its value |
| `SaxDocument.BareThenMore` | app/modules/utils/sax.js:1342-1367 | one with white space after it has the empty value |
| `SaxDocument.ScriptContent` | app/modules/utils/sax.js:1053-1070 | the text of a script is sent as it stands, and its end tag closes it |
| `SaxDocument.FeedIs` | app/modules/utils/sax.js:640-650 | texts with nothing between them go out as one, before the next event, and not at all where the options leave nothing |
| `SaxDocument.NodesParsed` | app/modules/utils/sax.js:973-1517 | content inside an element gives the events of its nodes, in order |
| `SaxDocument.DocumentParsed` | app/modules/utils/sax.js:973-1517 | parsing the text of any tree of elements, attributes, scripts, text, comments, CDATA sections, instructions and declarations, with a document type and others before the root, sends exactly the events of the tree, names in the case of the parser, in strict and in loose mode, with no error and every tag closed |
| `SaxDocument.DocumentInChunks` | app/modules/utils/sax.js:973-981 | however that text is cut, no chunk is refused and the events are the same |
| `SaxErrors.ErrorExactly` | app/modules/utils/sax.js:652-663 | in strict mode a character raises an error exactly where it is malformed, state by state |
| `SaxErrors.Counts` | app/modules/utils/sax.js:998-1006 | the parser counts characters, lines and columns as they are |
| `SaxLoose.NamesAsInXml` | app/modules/utils/sax.js:287-301 | names and white space are those of XML 1.0 (section 2.3), but for characters above U+FFFF |
| `SaxLoose.EntityLookup` | app/modules/utils/sax.js:919-950 | an entity is looked up as written, then in lower case, then as a reference |
| `SaxLoose.AngleIsText` | app/modules/utils/sax.js:1089-1097 | a "<" that begins no markup is text in loose mode, with spaces for the white space after it |
| `SaxLoose.AfterRootIsText` | app/modules/utils/sax.js:1038-1051 | after the root element loose mode reads markup as text |
| `SaxLoose.LooseEnd` | app/modules/utils/sax.js:848-917 | a loose end tag closes its element and those inside it, from the inside, or is text |
| `SaxLoose.RepeatedDropped` | app/modules/utils/sax.js:717-767 | the first of two attributes of the same name stands |
| `SaxLoose.ScriptKeepsEnd` | app/modules/utils/sax.js:1429-1457 | an end tag in a script is text, unless it is that of the script |
| `SaxLoose.OpenEntityIsText` | app/modules/utils/sax.js:1493-1506 | in loose mode an entity that is not ended is text |
| `SaxDocument.TextSentTwice` | app/modules/utils/sax.js:919-950 | from the start, the strict parser sends x twice for an element with x and an unknown entity |
| `PathSegments.SplitJoin` | core/js/tjs/path.js:91-145 | splitting what joining segments gives returns the segments |
| `PathSegments.FoldNormal` | core/js/tjs/path.js:91-145 | the fold leaves ".." at the bottom only, and only above the root of a relative path |
| `PathSegments.FoldFixed` | core/js/tjs/path.js:91-145 | a normal stack is left alone |
| `PathSegments.FoldLeads` | core/js/tjs/path.js:91-145 | the stack of a relative path leads where its segments lead, from any directory |
| `Paths.Ascend` | core/js/tjs/path.js:102-131 | the index arithmetic for ".." takes the last segment off the text, or adds ".." above the root |
| `Paths.NormalizeString` | core/js/tjs/path.js:91-145 | the dot and slash counter computes the fold over segments with a stack |
| `Paths.Normalize` | core/js/tjs/path.js:1084-1100 | root, folded segments and trailing slash, with "." for nothing |
| `Paths.NormalizeIdempotent` | core/js/tjs/path.js:1084-1100 | normalizing twice is normalizing once, on every string, and keeps the root, the stack and the slash at the end |
| `Paths.NormalLeads` | core/js/tjs/path.js:1084-1100 | normalizing a path does not change where it leads, from any working directory |
| `Paths.Resolve` | core/js/tjs/path.js:1048-1082 | gathering from the right equals changing directory from the left, beginning at the working directory |
| `RelativePaths.WalkRoute` | core/js/tjs/path.js:1121-1198 | climbing to the common directory and descending leads to the target |
| `RelativePaths.FindSeparator` | core/js/tjs/path.js:1148-1180 | the character scan finds the separator at which the directories part |
| `RelativePaths.EmitUps` | core/js/tjs/path.js:1182-1189 | one ".." for each directory left to climb |
| `RelativePaths.Relative` | core/js/tjs/path.js:1121-1198 | relative is the route between the two resolved directories, in all its cases |
| `RelativePaths.ResolveUndoesRelative` | core/js/tjs/path.js:1121-1198 | resolve undoes relative, from any working directory, for any two paths |
| `RelativePaths.AbsoluteRoundTrip` | core/js/tjs/path.js:1048-1082 | for a normalized absolute path the text comes back exactly when it is the root or has no trailing slash |
| `RelativePaths.TrailingSlashLost` | core/js/tjs/path.js:1048-1082 | "/a/" is normalized, and comes back as "/a" |
| `JsonrpcSession.CallInv` | core/js/tjs/jsonrpc.js:163-200 | a call keeps the order, the bounds and the account of all requests |
| `JsonrpcSession.FlushInv` | core/js/tjs/jsonrpc.js:307-339 | so does one turn of the flush loop |
| `JsonrpcSession.ResponseInv` | core/js/tjs/jsonrpc.js:476-500 | so does a response |
| `JsonrpcSession.TimeoutInv` | core/js/tjs/jsonrpc.js:662-692 | so does a timeout check |
| `JsonrpcSession.CloseInv` | core/js/tjs/jsonrpc.js:219-278 | so does close |
| `JsonrpcSession.RunInv` | core/js/tjs/jsonrpc.js:163-692 | so does every run of steps in any order |
| `JsonrpcSession.SettledAtMostOnce` | core/js/tjs/jsonrpc.js:163-692 | in every run each callback fires at most once, and a queued request is unsettled exactly while it is in one of the queue and the map |
| `JsonrpcSession.BoundsAndOrder` | core/js/tjs/jsonrpc.js:163-339 | at most 101 queued and 50 in flight; in-flight identifiers are below queued ones, and the wire has them in increasing order |
| `JsonrpcSession.ResponseMatches` | core/js/tjs/jsonrpc.js:476-500 | a response settles the request of its identifier and no other (section 5 of the JSON-RPC 2.0 Specification) |
| `JsonrpcSession.FlushSends` | core/js/tjs/jsonrpc.js:312-338 | a flush of an open session with less than 50 in flight sends the oldest request, which then waits behind all others; any other changes nothing |
| `JsonrpcSession.TimeoutSettlesLate` | core/js/tjs/jsonrpc.js:662-692 | exactly the entries of the map and the head of the queue that are older than 3 seconds are settled; everything else goes on waiting |
| `JsonrpcSession.CloseSettlesAll` | core/js/tjs/jsonrpc.js:254-275 | close fires each pending callback once, and no other, when there is a socket or the session is not CLOSED; otherwise it changes nothing |
| `JsonrpcSession.CloseCanLeavePending` | core/js/tjs/jsonrpc.js:254-275 | call, then a closed socket, then close leaves the request pending |
| `JsonrpcSession.TimeoutsDrain` | core/js/tjs/jsonrpc.js:662-692 | once all requests are older than 3 seconds, as many checks in a row as are queued leave none |
| `JsonrpcProgress.LateChecksSettle` | core/js/tjs/jsonrpc.js:662-692 | once the waiting requests are late, as many checks as are queued settle each of them, whatever calls, flushes, responses and other steps come in between |
| `JsonrpcTimeouts.CallQueues` | core/js/tjs/jsonrpc.js:163-200 | in every run a call takes the next identifier, and is queued behind the others with its time exactly when at most 100 are queued |
| `JsonrpcTimeouts.OpeningSends` | core/js/tjs/jsonrpc.js:584-601 | opening a session sends the oldest request at once |
| `JsonrpcTimeouts.TimesOut` | core/js/tjs/jsonrpc.js:662-692 | in every run a check settles the oldest queued request and those in flight exactly when more than 3 seconds have passed since their call, and no other request |
| `JsonrpcTimeouts.NoneWaitsForEver` | core/js/tjs/jsonrpc.js:163-692 | in every run, 101 checks more than 3 seconds after the last call settle every request queued before, whatever comes in between |
| `JsonrpcObject.Session.Call` | core/js/tjs/jsonrpc.js:163-200 | the method does the call step, and rejects exactly a queue of more than 100 |
| `JsonrpcObject.Session.FlushTurn` | core/js/tjs/jsonrpc.js:312-338 | one turn of the loop up to its await does the flush step |
| `JsonrpcObject.Session.ProcessResponse` | core/js/tjs/jsonrpc.js:476-500 | does the response step |
| `JsonrpcObject.Session.CheckRequestTimeout` | core/js/tjs/jsonrpc.js:662-692 | does the timeout step |
| `JsonrpcObject.Session.DropLateEntries` | core/js/tjs/jsonrpc.js:677-685 | deleting during the traversal of the map takes out exactly the late entries |
| `JsonrpcObject.Session.SetReadyState` | core/js/tjs/jsonrpc.js:584-601 | does the state step; opening flushes |
| `JsonrpcObject.Session.SocketClosed` | core/js/tjs/jsonrpc.js:726-739 | does the step of a closed socket |
| `JsonrpcObject.Session.Close` | core/js/tjs/jsonrpc.js:219-278 | does the close step |
| `Hexadecimal.HexRoundTrip` | core/js/tjs/jsonrpc.js:536-545 | the hexadecimal length is read back |
| `Hexadecimal.HexLower` | core/js/tjs/jsonrpc.js:536-545 | the letters of the length are in lower case |
| `Framing.ReadFrame` | core/js/tjs/jsonrpc.js:745-776 | in a buffer of at most 65536 characters, a complete frame at the front is delivered, and reading goes on after it |
| `Framing.ReadPart` | core/js/tjs/jsonrpc.js:745-776 | an incomplete frame stays in the buffer, wherever it is cut |
| `Framing.ReadDropped` | core/js/tjs/jsonrpc.js:752-755 | a longer buffer is dropped |
| `Framing.FrameText` | core/js/tjs/jsonrpc.js:536-545 | the packet for a message of 26 characters begins with 1a |
| `Framing.NextMessage` | core/js/tjs/jsonrpc.js:749-776 | one turn of the loop |
| `Framing.Reader.OnSocketData` | core/js/tjs/jsonrpc.js:745-776 | the loop delivers what reading the buffer gives, and keeps the rest |
| `Framing.DeliversInOrder` | core/js/tjs/jsonrpc.js:745-776 | for any split that keeps the buffer within the limit, exactly the longest prefix of complete frames is delivered at each point, in order |
| `Framing.WholeDelivery` | core/js/tjs/jsonrpc.js:752-755 | a stream of frames is delivered, all of it, exactly when no chunk takes the buffer over the limit |
| `Framing.LongChunkLost` | core/js/tjs/jsonrpc.js:752-755 | two frames of 40008 characters in one chunk are lost, and arrive in two |
| `ConfigText.TrimNeat` | core/js/tjs/config.js:490-497 | trim leaves exactly the texts without white space at the ends |
| `ConfigText.SpaceIs` | core/js/tjs/config.js:490-497 | trim takes the white space and line terminators of ECMA-262 |
| `ConfigText.TrimAround` | core/js/tjs/config.js:490-497 | white space around a text does not matter |
| `ConfigText.SplitUnlines` | core/js/tjs/config.js:535-535 | splitting a printed text gives back its lines |
| `ConfigText.EscapeRoundTrip` | core/js/tjs/config.js:861-869 | reading a JSON string that was printed gives back the text |
| `ConfigText.UnescapeIs` | core/js/tjs/config.js:504-517 | for every text, reading it as a JSON string gives a text exactly when it spells that text, and throws when it spells none (section 7 of RFC 8259) |
| `ConfigText.EscapeIs` | core/js/tjs/config.js:861-869 | a printed character is spelled by its sign, by four digits or by itself, each where it should be |
| `ConfigText.EscapePrintable` | core/js/tjs/config.js:861-869 | an escaped text has no control character, and no white space at an end where the text has none |
| `ConfigFile.HeaderParsed` | core/js/tjs/config.js:538-557 | a printed header sets the section and clears the comments |
| `ConfigFile.HeaderRead` | core/js/tjs/config.js:539-557 | the name of any header ends at the first closing bracket after it, or with the line |
| `ConfigFile.ValueRead` | core/js/tjs/config.js:504-517 | any value is read as the text that it spells, after trimming, or as it stands when it spells none |
| `ConfigFile.ItemRead` | core/js/tjs/config.js:565-580 | any item is read as the trimmed name before the first equals sign and the value behind it |
| `ConfigFile.ItemParsed` | core/js/tjs/config.js:565-580 | a printed item is read as its key under the section, with its value and the comments before it |
| `ConfigFile.LongestSection` | core/js/tjs/config.js:884-895 | a key goes into the section with the longest name that it is under |
| `ConfigFile.SortSorted` | core/js/tjs/config.js:871-874 | the section names are sorted |
| `ConfigFile.LessIs` | core/js/tjs/config.js:871-874 | by the first characters that differ, a proper prefix first |
| `ConfigFile.GroupHolds` | core/js/tjs/config.js:880-905 | the group of a section holds exactly the settings whose key has it as the chosen prefix, each as the key that it is read back as |
| `ConfigFile.AllParsed` | core/js/tjs/config.js:906-943 | after the printed sections exactly their settings have been read, a key under a section name as it was and one of the root section without a leading dot |
| `ConfigFile.PrintParse` | core/js/tjs/config.js:859-943 | printing then parsing restores every key with its value, trimmed, and comments exactly when the chosen prefix of none is the empty section name, whatever sections are declared |
| `ConfigFile.TidyNeat` | core/js/tjs/config.js:861-869 | trimming changes no value exactly when none has white space around it |
| `ConfigFile.SectionsParsed` | core/js/tjs/config.js:545-553 | the sections that come back are those that a key is in, each once |
| `ConfigFile.PrintedText` | core/js/tjs/config.js:859-943 | the text for a setting of the root section and one with a comment in another |
| `ConfigFile.LeadingDotLost` | core/js/tjs/config.js:889-895 | the key ".a" alone comes back as "a" |
| `ConfigFile.Config.ParseText` | core/js/tjs/config.js:480-591 | the loop over lines computes the parsed settings and sections |
| `ConfigFile.Config.ParseOneLine` | core/js/tjs/config.js:536-581 | the function for one line does the parsing step |
| `ConfigFile.Config.GroupValues` | core/js/tjs/config.js:880-905 | the nested loops build the group of each section |
| `ConfigFile.Config.Stringify` | core/js/tjs/config.js:859-943 | the output is the printed text of the model |
| `ListenerLists.RemovedUnique` | core/js/tjs/event-target.js:564-595 | removing takes out the match and only it |
| `ListenerLists.RemoveUndoesAdd` | core/js/tjs/event-target.js:425-469 | adding a new listener and removing it changes nothing |
| `ListenerLists.SetThenGet` | core/js/tjs/event-target.js:325-390 | the attribute reads back as set, as the last and only entry of its type; the other listeners stay |
| `ListenerLists.DispatchKeeps` | core/js/tjs/event-target.js:476-542 | after a dispatch exactly the visited once entries are gone |
| `ListenerLists.VisitedIs` | core/js/tjs/event-target.js:527-533 | the entries visited end with the first that stops the event, or with the list |
| `ListenerLists.CallsAt` | core/js/tjs/event-target.js:514-524 | every visited entry, at its place among the others, is called exactly when it is a function, or an object with handleEvent that is not the attribute |
| `ListenerLists.DispatchEnds` | core/js/tjs/event-target.js:499-533 | a dispatch ends right after the first listener that is called and stops the event, or with the list |
| `ListenerLists.AddedCalled` | core/js/tjs/event-target.js:425-469 | a function that is added is called, last of all, by a dispatch that nothing stops |
| `ListenerLists.AttributeCalled` | core/js/tjs/event-target.js:499-533 | a dispatch calls the listener of the attribute, at its place, exactly when nothing before it stops the event and it is a function |
| `ListenerLists.AttributeSetCalled` | core/js/tjs/event-target.js:339-387 | after setting the attribute, a dispatch calls its listener last of all, exactly when its entry is visited and it is a function |
| `ListenerLists.ObjectAttributeIgnored` | core/js/tjs/event-target.js:514-524 | an object with handleEvent is called as a listener and not as the attribute |
| `ListenerLists.RunUnique` | core/js/tjs/event-target.js:325-595 | in every run no pair is twice in a list and there is at most one attribute (section 2.7 of the DOM Standard) |
| `ListenerTarget.Bypassed` | core/js/tjs/event-target.js:502-512 | bypassing a node keeps all lists linked, without cycles, with their heads in the map |
| `ListenerTarget.Appended` | core/js/tjs/event-target.js:450-469 | so does appending a new one |
| `ListenerTarget.EventTarget.AddEventListener` | core/js/tjs/event-target.js:425-469 | appends, unless the pair is there; other lists stay |
| `ListenerTarget.EventTarget.RemoveEventListener` | core/js/tjs/event-target.js:564-595 | deletes the match; other lists stay |
| `ListenerTarget.EventTarget.GetAttribute` | core/js/tjs/event-target.js:325-337 | returns the listener of the attribute entry |
| `ListenerTarget.EventTarget.SetAttribute` | core/js/tjs/event-target.js:339-387 | takes the old attribute out and puts the new one last |
| `ListenerTarget.EventTarget.DispatchEvent` | core/js/tjs/event-target.js:476-542 | calls in order up to an immediate stop, and leaves the list minus the visited once entries |

## Left out

- Floating point, complex numbers, roots, exponentials and the operator plumbing of qjscalc.js.
- qjscalc.js: rational functions, PolyMod, rank, trace, charpoly, series_add and conversions to Series.
- ModularPower.PMod: the modulus is positive, as a Mod object keeps it.
- Primality.IsPrime: which composite numbers from 499 squared on are accepted is not determined.
- Kernel.ComputeKernel: the source assigns a variable that it does not declare; it is a local variable here, as in det.
- Elimination.SwapEntries: the rows of a matrix are values in an array, so that two rows are never the same object.
- Polynomials.DivRem: coefficients are elements of any field, compared exactly; Mod coefficients are not shown to be one.
- TruncatedSeries.Trim: works on a value, while the source shifts the array in place.
- sax.js: error messages, `end`, SAXStream, namespaces, the table of HTML entities and the buffer length check.
- SaxWrite.SaxParser.Write: each state is a function on the parser's fields and the method calls it, but for the loop over text, which is imperative; case maps, text options and numeric references are any functions; characters are Unicode scalar values.
- SaxDocument.DocumentParsed: documents written in one way, with no text before the root; the case map settles at once and leaves the keywords of markup alone, and no two attributes of a tag have the same name in it.
- path.js: the win32 half, join, dirname, basename, extname, parse and format; the working directory is any absolute path.
- jsonrpc.js: sockets, names, JSON, UTF-8, timers, reconnecting, subscriptions, server and manager; handlers that call back into the session within a step.
- Framing.ReadFrame: lengths count characters of the decoded text.
- Framing.NextMessage: so it stops at a header that is not a hexadecimal number, as for the next line.
- Framing.Reader.OnSocketData: a header that is not a hexadecimal number stops the model with a flag; the source goes on with NaN.
- config.js: files, objects, lists, profiles; names that JavaScript objects have already, such as `__proto__`; the order of names that look like integers within a section.
- ConfigText.EscapeRoundTrip: escapes of surrogates are read as errors.
- ConfigFile.LessIs: compares characters, where the source compares UTF-16 code units.
- ConfigFile.PrintParse: says nothing of keys whose local name is empty, has an equals sign or a line end, or begins with white space, `[`, `#` or `;`, of section names with `]`, and of comments that the parser would not read as comments.
- event-target.js: listeners that change the list during a dispatch or throw from handleEvent, the event object but for its immediate stop, and getEventListeners.
