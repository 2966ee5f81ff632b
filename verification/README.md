# Verified models of TLM's conversions, JSON, pipeline and dataset code

This project models four parts of TLM, a tensor-program tuner that trains a language model on
measured schedules, and proves what they promise.

- **Floating-point conversion.** The narrowing and widening templates, generic in the widths of
  both formats. `FloatFormat` defines rounding against all destination values; `Narrowing`,
  `NarrowingExact` and `Widening` prove that the conversions round correctly, are exact, monotone
  and inverse to each other, and exactly for which widths. `NarrowCode` and `WidenCode` are the
  code itself on machine words (`Bits`), proved against those functions. `SpecialValues` says what
  becomes of infinities, NaNs and signs.
- **JSON.** The cursor, the recursive-descent parser, UTF-8 output and the serializer of picojson.
  `JsonGrammar` is the parser as a function of a position; `JsonParser` and `JsonSerializer` are
  the imperative code; `JsonRoundTrip` and `JsonValues` prove that parsing inverts serializing,
  `JsonContexts` and `JsonOverflow` when the validating and the building parser agree and that strings
  stay UTF-8. `JsonNumbers`, `JsonStrings` and `JsonDocuments` are a grammar of texts that names no
  parser function; `JsonComplete` and `JsonSound` prove that the parser accepts exactly it, and
  `JsonTexts` that the serializer writes texts of it.
- **The measurement pipeline and the trainer.** A divider, GPU workers and a merger that share
  directories under a lock (`Pipeline` and its three companions, over `Slicing`), and the loop that
  consumes results in order and keeps a window of batches in flight (`Trainer`). Both are state
  machines with one action per file-system operation; the theorems are about every run.
- **Choosing tasks and records.** The scheduler that widens a window over shared latency histories
  (`Latency`, `Selection`, `Scheduler`), and the dataset code: prompts and their texts (`Records`),
  the best record of each prompt (`BestRecords`), file selection (`FileSelection`).

## What turned out false

- Narrowing is correct for all sources only if the bias gap exceeds the destination precision and
  two bits or more are dropped. The single to bfloat16 instance has gap 0 and turns zero into 0x0040.
- Widening is exact only if the bias gap is at least the source precision.
- A batch without tasks stops the merger: its merged directory is never made, and the final move
  fails. At rest all batches are published if and only if none is empty, and otherwise the merger has
  stopped for good.
- Validating a JSON text and building its value do not always agree. A double that rounds to infinity
  is accepted by the one and makes the other throw; they agree if and only if no such literal is read.
- The trainer leaves a batch behind if and only if batch 0 is not yet measured when it first looks at
  a tuning batch. `StallingRun` is such a run with two batches ahead, and it never goes on.
- Removing held-out files from the list being iterated skips the file after each removed one. With
  distinct held-out names it is the intended filter if and only if no two neighbours match when a
  name's turn comes. The held-out names are distinct, being distinct paths in one folder
  (gen/common.py:71-75 and 111-114). The files of one directory have distinct base names too, so only a
  dataset path with a wildcard in it can list two such neighbours.
- A worker forms its last `mv` command under the lock but runs it after releasing the lock
  (meta/run_measure.py:102-104). The model does the same, and safety does not depend on it.

## Reading the model

Machine words are naturals below a power of two, and every shift, subtraction and conversion that
can wrap is written out. `Narrow` takes a source representation of 32 bits or more, because below
that C++ would promote the differences of the range test to signed integers; `Widens` limits the
source to 32 bits, because the leading-zero count is for 32-bit words. JSON text is a sequence of
bytes; an object is a map, and the serializer visits its members in any order, as an unordered map
may. Of a double the literal is kept, with its exact decimal value where that decides an exception;
`strtod` is taken to round to nearest, ties to even. Latencies, weights and labels are real numbers.
A history is an object, so that models can share it. Renames in the pipeline are atomic and commands
succeed. A record's steps are JSON lists that begin with their kind, a split having its sizes in
fifth place, and a dictionary is given by its items in key order. Two prompts are the same key when
they are the same list. The shuffle is any order of the lines, and the files of a listing are
distinct paths.

## Model

| member | source | states |
|---|---|---|
| `Narrowing.StickyRoundIsExact` | 3rdparty/compiler-rt/builtin_fp16.h:140-153 | rounding in two stages, a shift that keeps a sticky bit and then a rounding shift, equals rounding once, for every number and shift, when at least two bits are spare |
| `Narrowing.OneSpareBitFails` | 3rdparty/compiler-rt/builtin_fp16.h:140-153 | with one spare bit the two stages differ, for a whole family of inputs |
| `Narrowing.NormalRounds` | 3rdparty/compiler-rt/builtin_fp16.h:108-120 | every source in the destination's normal range goes to the nearest destination value, ties to even, carries into the exponent and into infinity included |
| `Narrowing.SubnormalRounds` | 3rdparty/compiler-rt/builtin_fp16.h:131-154 | a normal source that is subnormal in the destination: one rounding shift of its significand is the nearest value, ties to even |
| `Narrowing.SubnormalSource` | 3rdparty/compiler-rt/builtin_fp16.h:131-142 | a subnormal or zero source rounds to zero, which is what the code returns, when the bias gap exceeds the destination precision |
| `Narrowing.OverflowPath` | 3rdparty/compiler-rt/builtin_fp16.h:128-130 | every source at or above the overflow threshold rounds to infinity |
| `Narrowing.TinyRounds` | 3rdparty/compiler-rt/builtin_fp16.h:131-154 | the whole underflow branch rounds correctly in an admissible pair of formats |
| `Narrowing.NarrowingRounds` | 3rdparty/compiler-rt/builtin_fp16.h:88-157 | for every admissible pair of formats and every source that is not a NaN, the result is the roundTiesToEven value of section 4.3.1 of IEEE 754-2019, defined against all destination values without mentioning the code |
| `NarrowingExact.CorrectIffAdmissible` | 3rdparty/compiler-rt/builtin_fp16.h:65-157 | all non-NaN sources round correctly if and only if the bias gap exceeds the destination precision and two or more bits are dropped |
| `NarrowingExact.Counterexample` | 3rdparty/compiler-rt/builtin_fp16.h:131-154 | outside that condition there is a source the code rounds wrongly |
| `NarrowingExact.ZeroBecomesNonZero` | 3rdparty/compiler-rt/builtin_fp16.h:131-154 | with a small bias gap an exact zero becomes a given non-zero subnormal |
| `NarrowingExact.LeastSubnormalRoundsUp` | 3rdparty/compiler-rt/builtin_fp16.h:131-154 | with a gap equal to the precision the least subnormal comes out as one instead of zero |
| `NarrowingExact.SingleBitFails` | 3rdparty/compiler-rt/builtin_fp16.h:140-153 | with one dropped bit some normal source is misrounded |
| `NarrowingExact.NormalSourcesAlwaysRound` | 3rdparty/compiler-rt/builtin_fp16.h:108-130 | from the underflow threshold up the result is correct in every pair of formats, admissible or not |
| `NarrowingExact.HalfPrecisionIsAdmissible` | src/runtime/builtin_fp16.cc:33-41 | the single and double to half instances meet the condition |
| `NarrowingExact.Bfloat16MapsZeroTo0x40` | src/relay/transforms/pattern_utils.h:300 | the single to bfloat16 instance does not meet it, and maps zero to 0x0040 |
| `NarrowingExact.InfiniteIff` | 3rdparty/compiler-rt/builtin_fp16.h:128-130 | a value rounds to infinity exactly from half a unit above the greatest finite number on (section 7.4 of IEEE 754-2019) |
| `NarrowingExact.NearestReal` | 3rdparty/compiler-rt/builtin_fp16.h:88-157 | the same result over real values: no destination value is nearer, and a tie went to the even encoding |
| `NarrowingExact.ConvertMonotone` | 3rdparty/compiler-rt/builtin_fp16.h:108-157 | the order of any two non-NaN values survives narrowing, across all branches, signs and infinities |
| `NarrowCode.RangeTest` | 3rdparty/compiler-rt/builtin_fp16.h:108 | one unsigned comparison of two wrapped differences decides membership of the half-open range |
| `NarrowCode.StickyTest` | 3rdparty/compiler-rt/builtin_fp16.h:144 | the left shift is non-zero exactly when the right shift loses a set bit |
| `NarrowCode.RebiasCommutes` | 3rdparty/compiler-rt/builtin_fp16.h:112-113 | subtracting the bias gap after the shift equals subtracting it before |
| `NarrowCode.RoundNearest` | 3rdparty/compiler-rt/builtin_fp16.h:115-120 | the compare-and-increment computes round to nearest, ties to even |
| `NarrowCode.NarrowInRange` | 3rdparty/compiler-rt/builtin_fp16.h:108-120 | the in-range branch on machine words, wrap-around included |
| `NarrowCode.NarrowQuiet` | 3rdparty/compiler-rt/builtin_fp16.h:121-127 | the NaN branch on machine words: infinity, quiet bit and truncated payload as separate fields; `NaNNarrows` says what it makes of a NaN |
| `NarrowCode.ShiftWithSticky` | 3rdparty/compiler-rt/builtin_fp16.h:144-145 | the shift with sticky bit |
| `NarrowCode.NarrowDenormal` | 3rdparty/compiler-rt/builtin_fp16.h:131-154 | the underflow branch on machine words |
| `NarrowCode.Narrow` | 3rdparty/compiler-rt/builtin_fp16.h:65-165 | the whole conversion on machine words computes `Convert`, which `NarrowingRounds`, `NaNNarrows` and `NarrowingKeepsSign` describe without naming it |
| `WidenCode.Clz` | 3rdparty/compiler-rt/builtin_fp16.h:33-61 | the binary search returns the number of leading zeros of every 32-bit word, zero included |
| `WidenCode.CountScale` | 3rdparty/compiler-rt/builtin_fp16.h:225 | the difference of two such counts is the shift that brings the leading one to the implicit position |
| `WidenCode.WidenNormal` | 3rdparty/compiler-rt/builtin_fp16.h:205-211 | the normal branch on machine words |
| `WidenCode.WidenSpecial` | 3rdparty/compiler-rt/builtin_fp16.h:213-220 | infinities and NaNs on machine words: quiet bit and payload land in separate fields; `SpecialWidens` says what becomes of them |
| `WidenCode.WidenDenormal` | 3rdparty/compiler-rt/builtin_fp16.h:221-229 | the renormalising branch on machine words, also where its exponent goes negative |
| `WidenCode.Widen` | 3rdparty/compiler-rt/builtin_fp16.h:169-244 | the whole conversion on machine words computes `WidenRep`, which the exactness theorems, `SpecialWidens` and `WideningClasses` describe, and `Extend` where the gap covers the subnormals |
| `Widening.WideningExact` | 3rdparty/compiler-rt/builtin_fp16.h:203-233 | every finite value, renormalised subnormals included, keeps its magnitude exactly |
| `Widening.WideningExactReal` | 3rdparty/compiler-rt/builtin_fp16.h:203-233 | the same as an equality of reals |
| `Widening.SignedExact` | 3rdparty/compiler-rt/builtin_fp16.h:203-236 | the same with signs, for the word the code returns |
| `Widening.ExactIffGapCovers` | 3rdparty/compiler-rt/builtin_fp16.h:169-236 | the code keeps the signed value of every finite source if and only if the bias gap is at least the source precision |
| `Widening.LeastSubnormalFails` | 3rdparty/compiler-rt/builtin_fp16.h:221-236 | otherwise the signed value of the least subnormal changes, also where its exponent runs into the sign bit |
| `Widening.RoundTripNumber` | 3rdparty/compiler-rt/builtin_fp16.h:65-244 | narrowing undoes widening on every number and infinity |
| `Widening.RoundTripNaN` | 3rdparty/compiler-rt/builtin_fp16.h:121-127 | a NaN comes back with its payload and the quiet bit set |
| `Widening.RoundTrip` | 3rdparty/compiler-rt/builtin_fp16.h:65-244 | both on whole encodings, for every bit pattern and all admissible widths |
| `Widening.HalfToSingle` | src/runtime/builtin_fp16.cc:33-37 | the half and single precision pair used by the runtime meets all conditions |
| `SpecialValues.NaNNarrows` | 3rdparty/compiler-rt/builtin_fp16.h:121-127 | every NaN narrows to a NaN of the same sign with the quiet bit set (section 6.2 of IEEE 754-2019), whose payload is the leading part of the payload it had |
| `SpecialValues.NarrowingKeepsSign` | 3rdparty/compiler-rt/builtin_fp16.h:157 | narrowing keeps the sign of every encoding |
| `SpecialValues.NaNIffNarrows` | 3rdparty/compiler-rt/builtin_fp16.h:108-157 | in an admissible pair of formats the result is a NaN if and only if the source is |
| `SpecialValues.SpecialWidens` | 3rdparty/compiler-rt/builtin_fp16.h:213-236 | an infinity or NaN keeps its sign, gets the greatest exponent and its fraction at the top of the wider one; the result is infinite if and only if the source is, and a NaN if and only if the source is |
| `SpecialValues.WideningClasses` | 3rdparty/compiler-rt/builtin_fp16.h:203-236 | where the gap covers the subnormals this holds of every source: infinities come from infinities, NaNs from NaNs, and all signs are kept |
| `JsonCursor.Input.constructor` | 3rdparty/picojson/picojson.h:664-672 | a fresh cursor stands at position 0 on line 1 |
| `JsonCursor.Input.Getc` | 3rdparty/picojson/picojson.h:673-686 | the two fields refine a position: the character there, -1 at the end, never past it; the line counts the newlines before the cursor |
| `JsonCursor.Input.Ungetc` | 3rdparty/picojson/picojson.h:687 | gives back one character, and a second call changes nothing |
| `JsonCursor.Input.Cur` | 3rdparty/picojson/picojson.h:688-695 | the position is unchanged; the line count stays right unless the pushed-over character was a newline |
| `JsonCursor.Input.SkipSpace` | 3rdparty/picojson/picojson.h:697-705 | stops at the first character that is not white space |
| `JsonCursor.Input.ExpectChar` | 3rdparty/picojson/picojson.h:706-713 | skips white space, then consumes the wanted character or nothing |
| `JsonCursor.Input.MatchText` | 3rdparty/picojson/picojson.h:714-722 | succeeds exactly when the pattern stands there; on failure it stops at the first difference |
| `Utf8.EncodeDecodes` | 3rdparty/picojson/picojson.h:772-788 | each scalar value is encoded so that it decodes (section 3 of RFC 3629) to itself, whatever follows |
| `Utf8.DecodeEncodes` | 3rdparty/picojson/picojson.h:772-788 | each well-formed character is the encoding of the scalar it decodes to |
| `Utf8.SurrogatesDoNotDecode` | 3rdparty/picojson/picojson.h:755-768 | the encoding of a surrogate would not be UTF-8, whatever follows |
| `Utf8.CombineBijective` | 3rdparty/picojson/picojson.h:769-770 | surrogate pairs and the range 0x10000 to 0x10FFFF correspond one to one |
| `JsonParser.ReadQuadHex` | 3rdparty/picojson/picojson.h:727-747 | four hexadecimal digits, or failure with the cursor before the offending character |
| `JsonParser.CombineBits` | 3rdparty/picojson/picojson.h:769-770 | the masks and shifts of the code compute that correspondence |
| `JsonParser.ReadCodePoint` | 3rdparty/picojson/picojson.h:749-791 | a Unicode escape: the bytes written are the encoding of the code point, surrogates are rejected |
| `JsonParser.Utf8Bytes` | 3rdparty/picojson/picojson.h:772-788 | the masks and shifts of the code compute the encoding |
| `JsonParser.ReadEscape` | 3rdparty/picojson/picojson.h:801-826 | the switch over escape characters |
| `JsonParser.ReadChar` | 3rdparty/picojson/picojson.h:794-830 | one turn of the loop over a string: what is left to parse after it |
| `JsonParser.ReadString` | 3rdparty/picojson/picojson.h:793-832 | a string up to its closing quote; control characters and the end of the input fail |
| `JsonParser.ReadNumber` | 3rdparty/picojson/picojson.h:876-894 | the longest run of number characters, where the decimal point is a full stop |
| `JsonParser.ReadNumberValue` | 3rdparty/picojson/picojson.h:919-946 | a 64-bit integer if the literal is one, else a double, which throws in the building context when it is infinite, else failure; `LiteralParses` and `NumberIsLiteral` say which literals those are |
| `JsonParser.ReadArray` | 3rdparty/picojson/picojson.h:836-853 | arrays on the imperative cursor, as the grammar function says |
| `JsonParser.ReadObject` | 3rdparty/picojson/picojson.h:855-873 | objects likewise; a repeated key keeps the last value |
| `JsonParser.Read` | 3rdparty/picojson/picojson.h:898-951 | the recursive parser refines the grammar function, which `ParserIsGrammar` describes, in its three outcomes, success, failure and exception, in value and in final position, and terminates on every byte sequence |
| `JsonNumbers.IsDoubleIff` | 3rdparty/picojson/picojson.h:939-943 | the texts taken as doubles are exactly those of the literal grammar: optional sign, digits with or without a fraction, at least one digit, optional exponent with at least one digit |
| `JsonNumbers.ExactOf` | 3rdparty/picojson/picojson.h:939-941 | the exact value of a literal is its digits as one number, scaled by the exponent less the number of fraction digits |
| `JsonNumbers.DecimalIsPlaceValue` | 3rdparty/picojson/picojson.h:919-946 | one more digit makes a run of digits ten times as large, plus that digit |
| `JsonNumbers.ToInt64Of` | 3rdparty/picojson/picojson.h:928-937 | a literal is an integer exactly when it has no fraction and no exponent and its value fits 64 bits |
| `JsonNumbers.LiteralParses` | 3rdparty/picojson/picojson.h:876-946 | every literal that begins with a digit or a minus sign, followed by something that cannot continue it, is read as itself up to its end, or throws there when it is infinite and a value is built |
| `JsonNumbers.NumberIsLiteral` | 3rdparty/picojson/picojson.h:876-946 | and whatever is read as a number is such a literal |
| `JsonStrings.PiecesRead` | 3rdparty/picojson/picojson.h:793-832 | every sequence of plain bytes, single-character escapes and Unicode escapes, with a closing quote, is read as the bytes it denotes |
| `JsonStrings.StringPieces` | 3rdparty/picojson/picojson.h:793-832 | and whatever is read as a string is such a sequence |
| `JsonComplete.DocRead` | 3rdparty/picojson/picojson.h:834-951 | every document of a grammar that names no parser function, with any white space in its gaps and anywhere in a text, is read as the value it denotes up to its end |
| `JsonSound.ParseSound` | 3rdparty/picojson/picojson.h:834-951 | whatever is read is white space and such a document |
| `JsonSound.ParserIsGrammar` | 3rdparty/picojson/picojson.h:834-951 | so the parser accepts a stretch of text if and only if it is white space and a document, and builds the value the document denotes |
| `JsonContexts.ContextsCompared` | 3rdparty/picojson/picojson.h:834-951 | for every text: the building context does what the validating context does and stops at the same place, or it throws at the end of the first literal the latter reads that rounds to infinity |
| `JsonContexts.ContextsAgreeIff` | 3rdparty/picojson/picojson.h:834-951 | so the contexts agree if and only if no number that is read is such a literal, and otherwise the building context throws |
| `JsonOverflow.InfiniteIffAtLeast` | 3rdparty/picojson/picojson.h:252-262 | in any binary format a decimal number reaches the threshold exactly when its roundTiesToEven value, by section 4.3.1 of IEEE 754-2019, is infinity |
| `JsonOverflow.OverflowsIffInfinite` | 3rdparty/picojson/picojson.h:939-943 | the literals on which a double value throws are those whose exact decimal value rounds to an infinite binary64 number |
| `JsonOverflow.ContextsDiffer` | 3rdparty/picojson/picojson.h:999-1052 | on `1e400` the validating context accepts and the building context throws |
| `JsonContexts.StringsAgree` | 3rdparty/picojson/picojson.h:793-832 | the same for strings |
| `JsonContexts.StringUtf8` | 3rdparty/picojson/picojson.h:793-832 | a string parsed from valid UTF-8 is valid UTF-8 |
| `JsonContexts.ParseUtf8` | 3rdparty/picojson/picojson.h:834-951 | so is every string and key anywhere in a parsed value, and the parser stops on a character boundary |
| `JsonContexts.QuadHexValue` | 3rdparty/picojson/picojson.h:727-747 | the digits of an escape are accepted exactly when all four are hexadecimal, and their value is that of the base-16 number |
| `JsonContexts.EscapesAreScalars` | 3rdparty/picojson/picojson.h:749-791 | an escape is accepted if and only if it is four such digits outside the surrogates, or those of a high surrogate followed by an escape of a low one; the bytes written then decode to the number it denotes |
| `JsonSerializer.WriteString` | 3rdparty/picojson/picojson.h:537-574 | writes exactly the escaped string |
| `JsonSerializer.Write` | 3rdparty/picojson/picojson.h:592-655 | writes exactly the text of the value, compact or indented, with a final newline in indented mode at the top |
| `JsonSerializer.WriteArray` | 3rdparty/picojson/picojson.h:597-618 | arrays, commas and line breaks |
| `JsonSerializer.WriteObject` | 3rdparty/picojson/picojson.h:619-647 | objects in whatever order their members are visited |
| `JsonTexts.EscapeLiterals` | 3rdparty/picojson/picojson.h:538-566 | every byte as it is written, byte for byte |
| `JsonTexts.BreakLiteral` | 3rdparty/picojson/picojson.h:584-590 | a line break is a line feed and two spaces for each level, a colon is followed by one space, and compact text has neither |
| `JsonTexts.TextIsLayout` | 3rdparty/picojson/picojson.h:592-647 | the text of a value is that of a document of the parser's grammar whose white space is exactly those breaks and spaces |
| `JsonTexts.EndLiteral` | 3rdparty/picojson/picojson.h:649-655 | indented text ends with one line feed after the value, compact text with the value |
| `JsonRoundTrip.EscapeParses` | 3rdparty/picojson/picojson.h:538-566 | each written byte is read back as that byte |
| `JsonRoundTrip.StringParses` | 3rdparty/picojson/picojson.h:568-574 | a written string is read back whole, with the cursor after its closing quote |
| `JsonRoundTrip.IntRoundTrip` | 3rdparty/picojson/picojson.h:485-520 | the decimal text of every 64-bit integer is read back as it |
| `JsonRoundTrip.OwnParses` | 3rdparty/picojson/picojson.h:592-655 | the text of a value, anywhere in an input and at any depth of indentation, is read as that value and not one byte more |
| `JsonRoundTrip.RoundTrip` | 3rdparty/picojson/picojson.h:537-661 | for every value, member order, mode, and text before and after that cannot extend a number, parsing the serialized text returns the value and stops at the end of its own text |
| `JsonRoundTrip.SerializationIsInjective` | 3rdparty/picojson/picojson.h:577-661 | equal texts come from equal values |
| `JsonValues.OrderDoesNotMatter` | 3rdparty/picojson/picojson.h:619-647 | two orders of the same members denote the same value |
| `JsonValues.TreeInOrder` | 3rdparty/picojson/picojson.h:619-647 | for every order of its keys an object without doubles has a tree the serializer visits in that order |
| `JsonValues.ValueRoundTrip` | 3rdparty/picojson/picojson.h:537-661 | for every value without doubles: it can be serialized, and however its members are ordered the text is read back as it |
| `Slicing.Divide` | meta/run_measure.py:29-38 | the parts, in order, concatenate to the list of tasks: nothing is lost or repeated, and no part exceeds the rounded-up share |
| `Slicing.PartLenIsLeast` | meta/run_measure.py:30 | the length of a part is the least one that is enough for all tasks |
| `Slicing.SliceAt` | meta/run_measure.py:31-34 | which task stands at each place of each part |
| `Slicing.SlicesDisjoint` | meta/run_measure.py:30-34 | two parts of a list without repetition share no task |
| `Slicing.PrefixEnds` | meta/run_measure.py:30-34 | all parts together hold all tasks |
| `PipelineSafety.InvStep` | meta/run_measure.py:20-105 | each of the fifteen file-system steps of the three kinds of process keeps the invariant |
| `PipelineSafety.RunKeeps` | meta/run_measure.py:20-105 | the invariant holds in every state of every interleaving |
| `PipelineSafety.MergeComplete` | meta/run_measure.py:58-71 | when the last part is merged the result is the whole batch, or does not exist because the batch is empty |
| `PipelineTheorems.PlaceUnique` | meta/run_measure.py:20-105 | a task is never in two places |
| `PipelineTheorems.PlaceExists` | meta/run_measure.py:20-105 | a task is always somewhere |
| `PipelineTheorems.Safety` | meta/run_measure.py:20-105 | over every run: each task is in exactly one place, no part is held by two workers, and a published batch holds exactly its original tasks |
| `PipelineTheorems.MergeWaitsForAllParts` | meta/run_measure.py:47-58 | merging begins only when every part is measured and complete |
| `PipelineTheorems.CopyFindsNoDirectory` | meta/run_measure.py:31-33 | the directory the divider creates never exists already |
| `PipelineLiveness.WorkDecreases` | meta/run_measure.py:20-105 | each step that is not polling decreases one stage measure |
| `PipelineLiveness.WorkNonNegative` | meta/run_measure.py:20-105 | which is never negative |
| `PipelineLiveness.BoundedWork` | meta/run_measure.py:20-105 | a run has at most (number of batches) times (7 times parts plus 8) steps that are not polling |
| `PipelineLiveness.RescanReachable` | meta/run_measure.py:46-58 | when only polling is left, the merger reaches a fresh listing by polling |
| `PipelineLiveness.AllPublishedIffNoneEmpty` | meta/run_measure.py:20-105 | once only polling is left, also after a fresh listing, all batches are published if and only if none was empty |
| `PipelineLiveness.CrashedIffSomeEmpty` | meta/run_measure.py:59-71 | and the merger has stopped if and only if some batch was empty |
| `PipelineLiveness.CrashedForever` | meta/run_measure.py:68-71 | a merger that has stopped publishes nothing in the rest of any run |
| `PipelineLiveness.EmptyBatchNeverPublished` | meta/run_measure.py:59-71 | an empty batch is never published, and no merged directory for it ever exists |
| `Trainer.ConsumesInOrder` | meta/run.py:105-132 | over every run, also a resumed one, results are consumed as consecutive indices and each is answered by the index `init_times` higher, so the indices sent are consecutive too, however measuring finishes |
| `Trainer.FourSendsCover` | gen/run.py:136-147 | any four consecutive sends of a run visit each file that is not held out exactly as often as it is listed, and no held-out file |
| `Trainer.NeverSendsTwice` | meta/run.py:36-68 | a run started anew never sends an index twice |
| `Trainer.TestsFollow` | meta/run.py:190-209 | in every fresh run with tests on, a test batch is sent for exactly the consumed indices that leave remainder 3 modulo 4, once their round has got that far; with tests off, for none |
| `Trainer.WindowIsFull` | meta/run.py:211-234 | while polling, exactly the next `init_times` indices are outstanding, if batch 0 was measured when the loop first looked at a tuning batch |
| `Trainer.LeftBehindIff` | meta/run.py:115-132 | a batch is left behind for good if and only if batch 0 is not yet measured when the loop first looks at a tuning batch |
| `Trainer.StalledForever` | meta/run.py:115-131 | once a smaller index heads the listing, a step consumes nothing and leaves it there |
| `Trainer.StalledRun` | meta/run.py:115-131 | so nothing is consumed in the rest of the run |
| `Trainer.StallingRun` | meta/run.py:36-132 | a run with two batches ahead in which the second finishes first, is taken, and the loop stalls |
| `Latency.ProcessShape` | gen/task_sheduler.py:90-94 | a processed history is non-increasing and non-negative, its old part is the running minimum and the rest zeros |
| `Latency.ProcessTwice` | gen/task_sheduler.py:85-94 | processing at a window and then at a wider one is processing at the wider one |
| `Latency.ScoreIsFall` | gen/task_sheduler.py:95-97 | a score is the fall over the window and never negative |
| `Latency.ScoreWidens` | gen/task_sheduler.py:85-97 | widening the window never lowers a score |
| `Latency.WidestScorePositive` | gen/task_sheduler.py:85-97 | at the widest window every history of 1 to 98 entries with a positive first one scores that first entry |
| `Latency.RunMinIsLeast` | gen/task_sheduler.py:90-91 | each entry becomes the least entry up to it |
| `Latency.ProcessMeans` | gen/task_sheduler.py:90-94 | so a processed history holds at each old place the least entry up to it, and zeros up to the window |
| `Latency.ScoreMeans` | gen/task_sheduler.py:90-96 | the score is the least latency seen before the window less the least seen at its end, which is zero when the window is longer than the history |
| `Scheduler.WeighMeans` | gen/task_sheduler.py:88-97 | a task's entry is that fall times its weight |
| `Scheduler.History.Round` | gen/task_sheduler.py:90-97 | the loop body on the shared list, in place |
| `Scheduler.ScoreAll` | gen/task_sheduler.py:88-97 | all scores of one window, although the lists change in place |
| `Scheduler.TryWindow` | gen/task_sheduler.py:85-116 | one window: histories processed, names added until there are enough |
| `Scheduler.WantIsGreatest` | gen/task_sheduler.py:101-102 | with q the least number of which four make up all tasks, the wanted number is the greatest w that is at most q and for which the trials so far, 64 for each of w and 128 for each of q stay within 20000 |
| `Selection.Take` | gen/task_sheduler.py:106-114 | the selecting loop |
| `Selection.AddUntilBounds` | gen/task_sheduler.py:109-116 | the set never exceeds the wanted number, and misses it only after taking every offered name |
| `Selection.TakesTheBest` | gen/task_sheduler.py:99-116 | when enough scores are positive, the choice is the best ones by weighted score |
| `StableSort.SortSorts` | gen/task_sheduler.py:99-100 | sorting yields a descending permutation |
| `StableSort.SortIsStable` | gen/task_sheduler.py:99-100 | in which equal keys keep their order |
| `Scheduler.SelectModel` | gen/task_sheduler.py:84-117 | one model: never more than wanted, and exactly as many under the stated conditions; with distinct names the best ones when the first window suffices; and with positive weights too, for the window used last: only tasks that fell over it, all that fell over the window before it, of the rest those that fell most, and all that fell at all if still short |
| `Scheduler.TopChoiceMeans` | gen/task_sheduler.py:99-116 | what the best choice of the first window is, by the falls of the histories alone: if enough tasks fell, the wanted number is chosen, each fell, and none left out fell by more |
| `Scheduler.DerivedShape` | gen/task_sheduler.py:68-97 | what other models do to a shared history keeps it non-increasing with zeros only appended, and keeps a good history good |
| `Scheduler.SelectShared` | gen/task_sheduler.py:80-117 | one model among others: its guarantees hold whatever they did to the histories it shares with them, relative to the histories it finds |
| `Scheduler.ScheduleAll` | gen/task_sheduler.py:80-117 | all models in turn with aliased histories: the count and both choices for each, relative to the histories it finds, which derive from the original ones; the total is the union |
| `Scheduler.WithinBudget` | gen/task_sheduler.py:101-104 | past trials, 64 per selected task and 128 per quarter of the tasks, rounded up, stay within 20000 whenever anything is selected |
| `Records.Words.Dfs` | gen/make_dataset_utils.py:5-17 | appends the words of a value to the caller's list, and fails exactly on a null |
| `Records.AllTokensAppend` | gen/make_dataset_utils.py:11-13 | flattening distributes over concatenation |
| `Records.TokensAreLeaves` | gen/make_dataset_utils.py:5-17 | every word occurs among the words of a value as often as it is a leaf or a key of it |
| `Records.JsonToToken` | gen/make_dataset_utils.py:43-50 | each text becomes its words joined by blanks |
| `Records.JoinAppend` | gen/make_dataset_utils.py:48 | joining two lists of words puts one blank between the two texts, and a single word is its own text |
| `Records.TextTokens` | gen/make_dataset.py:241-247 | the words of a prompt are the graph, then those of the task, of the initial state and of the steps |
| `Records.ScanRecord` | gen/make_dataset.py:112-120 | the loop erases every split and keys the record by its steps up to the last partition step; `EraseStepMeans` and `PromptMeans` say which they are |
| `Records.ScanSketch` | gen/make_dataset.py:181-193 | the loop cuts the erased record at the first partition step, or fails without one; `SketchMeans` says which it is |
| `Records.EraseInPlace` | gen/make_dataset.py:115-118 | in a split every size becomes 1, their number and everything else stay; other steps are not touched |
| `Records.EraseStepMeans` | gen/make_dataset.py:115-118 | the same of the function the two loops are proved against |
| `Records.EraseForgetsSizes` | gen/make_dataset.py:115-118 | two steps are erased to the same if and only if they are the same but for the values of tile sizes |
| `Records.PromptMeans` | gen/make_dataset.py:112-120 | the prompt is the erased steps up to and including the last partition step, and missing if and only if there is none |
| `Records.SketchMeans` | gen/make_dataset.py:181-193 | likewise the sketch, up to the first partition step |
| `Records.SamePromptIff` | gen/make_dataset.py:112-130 | two records have the same prompt if and only if their steps up to the last partition step are the same but for the values of tile sizes |
| `Records.SketchIsPromptIff` | gen/make_dataset.py:112-120 | the two cuts agree if and only if the record has no second partition step |
| `Records.InputToTokens` | gen/make_dataset.py:229-249 | the prompts for the states of an input: erased, but not cut |
| `Records.MoreSteps` | gen/make_dataset.py:229-249 | a state with more steps has a text that continues the text of the state it came from |
| `Records.SketchBeginsTrainingText` | gen/make_dataset.py:98-139 | erasing is idempotent on a sketch, and its prompt begins the training text of every record with that prompt or sketch |
| `BestRecords.TakeLine` | gen/make_dataset.py:108-139 | what the loop does with one line: its failure, or the updated dictionary and minimum |
| `BestRecords.SumAppend` | gen/make_dataset.py:126 | the sum of a concatenation is the sum of the sums, and that of one cost is the cost |
| `BestRecords.LatencyIsMean` | gen/make_dataset.py:126 | the latency times the number of costs is their sum, and it lies between the least and the greatest |
| `BestRecords.UsableIff` | gen/make_dataset.py:122-129 | a record is usable if and only if it ran, in under 1e10 on average |
| `BestRecords.FirstFailure` | gen/make_dataset.py:112-129 | the failure reported is that of the first line without costs or usable without a partition step |
| `BestRecords.Collect` | gen/make_dataset.py:104-139 | the loop over the shuffled lines computes `Best` and the least time, and fails on the first line that has no cost or no prompt |
| `BestRecords.BestOfEveryGroup` | gen/make_dataset.py:128-139 | one record per prompt, each as fast as every usable line with that prompt |
| `BestRecords.ShuffleKeepsTimes` | gen/make_dataset.py:106-142 | the prompts and their times do not depend on the order of the lines |
| `BestRecords.LatencyMinIsLeast` | gen/make_dataset.py:131 | the overall minimum is attained, and is a lower bound |
| `BestRecords.ForGenBest` | gen/make_dataset.py:98-165 | labels, sorting and the platform's cut, with all failures; `OneRecordPerProgram`, `AllKept` and `OneKept` say what comes out |
| `BestRecords.FailsIff` | gen/make_dataset.py:112-163 | it fails if and only if a line has no cost, a usable line has no partition step or time zero, or the platform is another |
| `BestRecords.OneRecordPerProgram` | gen/make_dataset.py:112-139 | two usable lines that differ only in tile sizes, up to the last partition step, have exactly one record between them, and it is as fast as either |
| `BestRecords.AllKept` | gen/make_dataset.py:142-165 | where all are kept: one record per prompt answering every usable line, labels in (0, 1] in descending order, the first 1, and empty only without usable lines |
| `BestRecords.OneKept` | gen/make_dataset.py:155-158 | where one is kept it is the fastest of the file |
| `FileSelection.RemoveMatching` | gen/make_dataset.py:316-318 | removing from the list under iteration leaves `Survivors`: the file after a removed one is skipped |
| `FileSelection.RemovesAllIff` | gen/make_dataset.py:316-318 | that is the plain filter if and only if no two neighbours match |
| `FileSelection.HoldOut` | gen/make_dataset.py:314-318 | the nested loop; with distinct base names it is the plain filter |
| `FileSelection.HoldOutIff` | gen/make_dataset.py:314-318 | for several names: the plain filter if, when each name's turn comes, no two neighbours have it; and only if, when no name is held out twice |
| `FileSelection.RepeatedName` | gen/make_dataset.py:314-318 | a name held out twice is passed over twice, and may go where one pass would leave it |
| `FileSelection.OrderMatters` | gen/make_dataset.py:314-318 | otherwise even the order of the held-out names changes what is left |
| `FileSelection.HoldOutBySet` | gen/make_dataset.py:390-398 | the form with a set computes the plain filter |
| `FileSelection.KeepAppend` | gen/make_dataset.py:390-398 | filtering distributes over concatenation |
| `FileSelection.SelectQuarter` | gen/make_dataset.py:401-405 | the files whose place has the batch index's remainder modulo 4 |
| `FileSelection.QuarterAt` | gen/make_dataset.py:401-405 | which file stands at each place of a batch, and how many there are |
| `FileSelection.FourBatches` | gen/make_dataset.py:386-405 | any four consecutive batch indices visit each file that is not held out exactly as often as it is listed, and no held-out file |

## Left out

- Narrow: does not model source representations below 32 bits, whose range test C++ evaluates in signed arithmetic, where it never holds; no instance in the repository has one.
- Widen: does not model sources wider than 32 bits, whose leading zeros the 32-bit count would truncate; no instance in the repository has one.
- ReadNumber: does not model a locale whose decimal point is not a full stop; the code then rewrites it before `strtod` and after printing.
- picojson doubles: a double that does not overflow keeps its literal, and printing doubles is left out; both are foreign code.
- picojson's error message and line report, its denying parse context, and its storage, moves and comparison: they only add easy members.
- The order in which dictionaries are sorted before flattening; records hold none.
- Crashes and restarts of the measuring processes, and failing commands: the startup move does not cover every window.
- gen/run_measure.py: it claims files by renaming without a lock; the locked protocol of meta/run_measure.py is the one modelled.
- ssh, rsync, zip, tmux, mail and sleeps: delivery of a batch is one atomic step.
- Trainer: when training stops is a free choice of the model, and the commands between accepting and sending are one step each.
- The grouping and sampling of for_gen_eval_sketch beyond its cut of a record, tokenizers, datasets, model training and softmax: libraries and randomness.
- meta/meta_task_sheduler.py: the same selection loop as the scheduler modelled here.
- The compiler, runtime and applications of the repository outside these files.
