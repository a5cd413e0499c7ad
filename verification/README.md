# MOEA Framework core pieces in Dafny

This project models five small, self-contained pieces of the MOEA Framework (a Java library for multi-objective
evolutionary optimisation) and proves properties about them:

- **`UpdateDocs`**, the documentation tool that keeps code samples in Markdown and XSLT pages in sync with the
  example programs. The model covers the code-sample formatter, which:
  - cuts out a line range;
  - strips the common indentation;
  - drops `//` comment lines;
  - expands tabs;
  - wraps the result in a Markdown fence or an HTML `<pre><![CDATA[` block.

  It also covers the scan that skips the code block following a directive, the class name derived from an example's
  path, the extension-to-file-type lookup, and the printed line range of the formatting options. These are modules
  `DocFormat` and `DocDirectives`. The Java library behaviour they rely on is in `JavaText`: `String.trim`,
  `Character.isWhitespace`, `equalsIgnoreCase`, `Integer.parseInt`/`toString`, `BufferedReader.readLine` and
  `String.join`.
- **Saltelli sampling** (`Saltelli`). This rearranges the rows of a Sobol' sequence into blocks of `2D + 2` rows with
  single columns swapped between the two halves A and B of each point. The Sobol' matrix is an input and its element
  type is abstract.
- **SMS-EMOA** (`SmsEmoa`). The model covers:
  - the selection of the last nondominated front, after every fitness is reset to 0;
  - the `indicator` configuration option and its read-back;
  - the comparator that tournament selection uses.
- **Linear aggregate fitness** (`LinearAggregate`). This is `LinearObjectiveComparator.calculateFitness` over
  mathematical reals, with its rule that repeats the last weight.
- **Compound mutation** (`CompoundMutation`). This copies the parent and then applies the operators left to right.
  Operators are arbitrary functions.

`Results` holds the `Option` and `Result` types every module uses. A Java exception is modelled as a `Failure` whose
error names the exception's cause.

## Model

| member | source | states |
|---|---|---|
| JavaText.TrimStartShape | src/org/moeaframework/util/io/UpdateDocs.java:140 | Leading trimming leaves the longest suffix that does not start with a character at or below U+0020, and everything dropped is such a character |
| JavaText.TrimEndShape | src/org/moeaframework/util/io/UpdateDocs.java:140 | Trailing trimming leaves the longest prefix that does not end with a character at or below U+0020 |
| JavaText.BlankIffAllTrimmable | src/org/moeaframework/util/io/UpdateDocs.java:140-142 | A line is skipped as empty after `trim()` exactly when every character is at or below U+0020 |
| JavaText.TrimStartsWith | src/org/moeaframework/util/io/UpdateDocs.java:266 | For a prefix with no trimmable character, the trimmed line starts with it exactly when the line with only its leading part trimmed does |
| JavaText.NatToDecimal | src/org/moeaframework/util/io/UpdateDocs.java:324-325 | The decimal text of a number is non-empty, all digits, and has no leading zero |
| JavaText.ParseInt | src/org/moeaframework/util/io/UpdateDocs.java:82-83 | Parsing succeeds exactly on non-empty all-digit text whose value is at most 2^31-1; otherwise it is a NumberFormatException |
| JavaText.ParseIntToString | src/org/moeaframework/util/io/UpdateDocs.java:82-83 | Every int from 0 to 2^31-1 parses back from its printed form |
| JavaText.ReadLines | src/org/moeaframework/util/io/UpdateDocs.java:222-228 | The lines read hold no terminator, and empty content has no lines |
| JavaText.ReadLinesStep | src/org/moeaframework/util/io/UpdateDocs.java:222-224 | A terminator-free line followed by a line separator is read as exactly that line, and reading continues right after the separator |
| JavaText.ReadLinesOfJoin | src/org/moeaframework/util/io/UpdateDocs.java:222-228 | Terminator-free lines joined with `\n`, `\r\n` or `\r` read back as the same lines when the last line is non-empty |
| DocFormat.NewOptions | src/org/moeaframework/util/io/UpdateDocs.java:308-321 | New options keep the language and range and turn all three switches on, with no file type yet |
| DocFormat.Slice | src/org/moeaframework/util/io/UpdateDocs.java:234 | The slice succeeds iff `1 <= start <= min(size, end) + 1`, and then holds exactly lines `start-1 .. min(size, end)-1` |
| DocFormat.DefaultRangeKeepsAll | src/org/moeaframework/util/io/UpdateDocs.java:298-300 | The default range `[1, Integer.MAX_VALUE]` keeps every line |
| DocFormat.DropFirstCharRound | src/org/moeaframework/util/io/UpdateDocs.java:257-260 | One round removes exactly the first character of every non-empty line and keeps empty lines empty |
| DocFormat.DropFirstCharIndentWidth | src/org/moeaframework/util/io/UpdateDocs.java:238-262 | One stripping round narrows the common indentation width by exactly one column |
| DocFormat.StripIndentation | src/org/moeaframework/util/io/UpdateDocs.java:238-262 | Stripping keeps the line count and stops with a first line whose first column is not common whitespace. No lines, or a first line used up, is an error |
| DocFormat.StripIndentationRemovesCommonIndent | src/org/moeaframework/util/io/UpdateDocs.java:238-262 | With `k` the width of the common whitespace indentation, stripping removes exactly `k` leading characters from every line, or fails when the first line is no longer than `k` |
| DocFormat.IndentWidthExists | src/org/moeaframework/util/io/UpdateDocs.java:238-262 | Every list of lines has a common-indentation width, so the loop always terminates |
| DocFormat.StripComments | src/org/moeaframework/util/io/UpdateDocs.java:265-267 | A line survives exactly when it is in the input and its trimmed text does not start with `//` |
| DocFormat.StripCommentsAppend | src/org/moeaframework/util/io/UpdateDocs.java:266 | Comment removal works line by line in order: it distributes over concatenation |
| DocFormat.StripCommentsIdempotent | src/org/moeaframework/util/io/UpdateDocs.java:265-267 | Stripping comments twice is the same as stripping once |
| DocFormat.ExpandTabs | src/org/moeaframework/util/io/UpdateDocs.java:272 | Each tab becomes four spaces and every other character stays: no tab is left, each tab grows the line by three characters, and a one-character line maps to four spaces or to itself |
| DocFormat.ExpandTabsNoTab | src/org/moeaframework/util/io/UpdateDocs.java:272 | Text without tabs is unchanged |
| DocFormat.ExpandTabsAppend | src/org/moeaframework/util/io/UpdateDocs.java:272 | Expansion distributes over concatenation |
| DocFormat.ExpandTabsOfTab | src/org/moeaframework/util/io/UpdateDocs.java:272 | A tab between two pieces of text becomes four spaces, with the pieces expanded on their own |
| DocFormat.ExpandTabsKeepsComment | src/org/moeaframework/util/io/UpdateDocs.java:265-275 | A line is a comment line exactly when its tab-expanded form is, so the two steps commute |
| DocFormat.WrapBody | src/org/moeaframework/util/io/UpdateDocs.java:277-291 | Markdown adds 3 lines and HTML adds 4, and the body between header and trailer is exactly the body wrapped |
| DocFormat.FormatBody | src/org/moeaframework/util/io/UpdateDocs.java:233-275 | The body is defined iff the range is valid and stripping succeeds. It is no longer than the slice, and every line is tab-free and comment-free when those switches are on |
| DocFormat.FormatLines | src/org/moeaframework/util/io/UpdateDocs.java:233-291 | Formatting succeeds iff the body is defined and a file type is set; a missing type is the null-switch error. The output is the file type's header, then exactly the formatted body, then the trailer |
| DocFormat.FormatBodyContents | src/org/moeaframework/util/io/UpdateDocs.java:233-275 | With all three switches on (the only setting the tool uses), the body is the line range with its common indentation of width `k` removed, comment lines dropped and tabs expanded; an empty range or a first line no longer than `k` is an error |
| DocFormat.FormatLinesContents | src/org/moeaframework/util/io/UpdateDocs.java:233-291 | For a valid range whose first line is longer than its common indentation `k`, the block is the header, the body of the previous row, and the trailer |
| DocFormat.Format | src/org/moeaframework/util/io/UpdateDocs.java:293 | Joining never fails: the string exists exactly when the lines do |
| DocFormat.HeaderClean | src/org/moeaframework/util/io/UpdateDocs.java:277-291 | The header lines of either file type contain no line terminator when the language has none |
| DocFormat.WrapClean | src/org/moeaframework/util/io/UpdateDocs.java:277-291 | Wrapping a terminator-free body gives terminator-free lines |
| DocFormat.FormatBodyClean | src/org/moeaframework/util/io/UpdateDocs.java:233-275 | No formatting step introduces a line terminator |
| DocFormat.FormatLinesClean | src/org/moeaframework/util/io/UpdateDocs.java:233-291 | The formatted block holds no line terminator and ends with a non-empty line |
| DocFormat.FormatReadsBack | src/org/moeaframework/util/io/UpdateDocs.java:219-231 | Joined with any platform line separator and read back line by line, the output of `format(String, ...)` gives exactly the formatted lines |
| DocDirectives.FindFileType | src/org/moeaframework/util/io/UpdateDocs.java:342-350 | The type found is the first, in declaration order, with a matching extension; none is found only when no type matches |
| DocDirectives.FromExtension | src/org/moeaframework/util/io/UpdateDocs.java:341-351 | A type is returned iff one of its declared extensions equals the extension ignoring case |
| DocDirectives.FromExtensionOfDeclared | src/org/moeaframework/util/io/UpdateDocs.java:330-351 | Each declared extension, in any mix of case, maps back to its own type |
| DocDirectives.ScannedFilesHaveFileType | src/org/moeaframework/util/io/UpdateDocs.java:55-58 | Every `md` or `xml` file the scan processes gets a non-null file type |
| DocDirectives.OptionsFor | src/org/moeaframework/util/io/UpdateDocs.java:80-92 | Options are built iff both present bounds parse. A present bound is its parsed value and an absent one the default. The file type comes from the document's extension, and `output` in any case clears the language |
| DocDirectives.BoundTextRoundTrip | src/org/moeaframework/util/io/UpdateDocs.java:324-325 | A printed bound is digits or blank, and parses back to the bound (blank gives the default) |
| DocDirectives.RangeTextRoundTrip | src/org/moeaframework/util/io/UpdateDocs.java:323-326 | The printed range matches the range part of the directive pattern and parses back to the same bounds |
| DocDirectives.OptionsOfPrintedRange | src/org/moeaframework/util/io/UpdateDocs.java:80-92 | A directive carrying the printed range of a directive's options, with the same language and document extension, yields those options again |
| DocDirectives.RemoveExtension | src/org/moeaframework/util/io/UpdateDocs.java:167 | Removing the extension yields a prefix of the file name |
| DocDirectives.RemoveExtensionOf | src/org/moeaframework/util/io/UpdateDocs.java:167 | `path.ext` loses exactly `.ext` when the extension has no dot or separator |
| DocDirectives.Segments | src/org/moeaframework/util/io/UpdateDocs.java:167-170 | Path elements are non-empty and contain no `/` |
| DocDirectives.ClassName | src/org/moeaframework/util/io/UpdateDocs.java:166-174 | A class name contains neither `/` nor `\` |
| DocDirectives.ClassNameOfPath | src/org/moeaframework/util/io/UpdateDocs.java:169-173 | Dropping a leading source root and joining the remaining path elements with dots leaves no `/` or `\` |
| DocDirectives.ClassNameOfRelativePath | src/org/moeaframework/util/io/UpdateDocs.java:169-173 | For a relative path, the class name is the elements joined by dots, with a leading `examples`, `src` or `test` dropped |
| DocDirectives.ClassNameOfSourceFile | src/org/moeaframework/util/io/UpdateDocs.java:166-174 | The class name of `d1/.../Name.ext` is the elements joined by dots, without the first exactly when it is `examples`, `src` or `test`; such an element alone is the `subpath` error |
| DocDirectives.FirstNonBlank | src/org/moeaframework/util/io/UpdateDocs.java:139-144 | The first line that is not blank after trimming, with every earlier line blank |
| DocDirectives.NextFence | src/org/moeaframework/util/io/UpdateDocs.java:146-152 | The first fence line at or after a position, with no fence before it |
| DocDirectives.ScanInBlock | src/org/moeaframework/util/io/UpdateDocs.java:139-157 | Once the opening fence has been read, the loop ends right after the next fence line, or fails at end of input |
| DocDirectives.ScanBeforeBlock | src/org/moeaframework/util/io/UpdateDocs.java:139-159 | Started after blank lines only, the loop ends as the first non-blank line and the next fence determine: the wrong-line error, the null-type error, end of input, or the count through the closing fence |
| DocDirectives.SkipNextCodeBlock | src/org/moeaframework/util/io/UpdateDocs.java:124-160 | Skipping consumes blank lines, then an opening and a closing fence, and returns right after the closing fence. It fails on a non-fence line before the opening fence and at end of input |
| DocDirectives.SkipMarkdownBlock | src/org/moeaframework/util/io/UpdateDocs.java:128-131 | A Markdown block of `n` fence-free lines, whatever follows, is skipped in exactly `n + 3` lines |
| DocDirectives.SkipHtmlBlock | src/org/moeaframework/util/io/UpdateDocs.java:128-133 | An HTML `<pre>` block of `n` fence-free lines, whatever follows, is skipped in exactly `n + 4` lines |
| DocDirectives.SkipConsumesFormattedBlock | src/org/moeaframework/util/io/UpdateDocs.java:124-160 | A freshly formatted block whose body has no fence-like line is skipped exactly, whatever follows it |
| Saltelli.Block | src/org/moeaframework/util/sequence/Saltelli.java:65-97 | A block is A, then A with column k from B, then B with column k from A, then B, all rows of length D |
| Saltelli.Layout | src/org/moeaframework/util/sequence/Saltelli.java:58-61 | The sample has N = n(2D+2) rows of length D |
| Saltelli.LayoutBlock | src/org/moeaframework/util/sequence/Saltelli.java:62-100 | Row `b(2D+2) + o` of the sample is row o of the block of Sobol' point `1000 + b` |
| Saltelli.LayoutIgnoresWarmup | src/org/moeaframework/util/sequence/Saltelli.java:60-64 | The first 1000 Sobol' points do not affect the sample |
| Saltelli.CopyColumns | src/org/moeaframework/util/sequence/Saltelli.java:65-67 | The copied row is the D columns starting at the offset |
| Saltelli.MixColumns | src/org/moeaframework/util/sequence/Saltelli.java:72-90 | Column k is read from one half and every other column from the other |
| Saltelli.MixedRowOfBlockA | src/org/moeaframework/util/sequence/Saltelli.java:71-81 | Row `1 + k` of the block is A with column k taken from B |
| Saltelli.MixedRowOfBlockB | src/org/moeaframework/util/sequence/Saltelli.java:83-93 | Row `D + 1 + k` of the block is B with column k taken from A |
| Saltelli.GenerateBlock | src/org/moeaframework/util/sequence/Saltelli.java:65-99 | The rows written for one point are exactly its block |
| Saltelli.Generate | src/org/moeaframework/util/sequence/Saltelli.java:53-103 | It fails iff N is not a multiple of 2D+2. Otherwise it gives N rows of length D laid out as the blocks of points 1000.. in order |
| SmsEmoa.LastRank | src/org/moeaframework/algorithm/SMSEMOA.java:145-153 | The settled rank is at least 0 and at least every solution's rank |
| SmsEmoa.LastRankAttained | src/org/moeaframework/algorithm/SMSEMOA.java:145-153 | A positive settled rank is some solution's rank |
| SmsEmoa.RankIndicesShape | src/org/moeaframework/algorithm/SMSEMOA.java:155-157 | The positions collected for a rank are exactly the positions holding that rank, in strictly increasing order |
| SmsEmoa.ComputeFitnessForLastFront | src/org/moeaframework/algorithm/SMSEMOA.java:143-163 | Every fitness becomes 0 and nothing else changes; the front collected is the last front |
| SmsEmoa.LastFrontMembers | src/org/moeaframework/algorithm/SMSEMOA.java:143-162 | A solution is in the last front iff its rank is the settled rank, and the front keeps population order |
| SmsEmoa.LastFrontNonEmpty | src/org/moeaframework/algorithm/SMSEMOA.java:143-162 | With non-negative ranks the settled rank is the maximum rank, and a non-empty population has a non-empty front |
| SmsEmoa.ApplyConfiguration | src/org/moeaframework/algorithm/SMSEMOA.java:166-181 | No `indicator` key keeps the evaluator. `hypervolume` or `epsilon`, ignoring case, selects that evaluator; any other value is a ConfigurationException |
| SmsEmoa.GetConfiguration | src/org/moeaframework/algorithm/SMSEMOA.java:183-194 | `indicator` is set to `hypervolume` or `epsilon` only for those evaluators; every other key is passed through unchanged |
| SmsEmoa.ConfigurationRoundTrip | src/org/moeaframework/algorithm/SMSEMOA.java:166-194 | Applying a reported configuration restores the hypervolume or epsilon evaluator |
| SmsEmoa.EpsilonUpperCaseReadsBack | src/org/moeaframework/algorithm/SMSEMOA.java:166-194 | `indicator=EPSILON` selects the epsilon evaluator, which is reported back as `epsilon` |
| SmsEmoa.ChooseComparator | src/org/moeaframework/algorithm/SMSEMOA.java:94-98 | Nondominated sorting alone iff there is no evaluator; otherwise rank then fitness in the evaluator's direction |
| SmsEmoa.CompareRankThenFitness | src/org/moeaframework/algorithm/SMSEMOA.java:200-202 | The chained comparison yields -1, 0 or 1 |
| SmsEmoa.RankPrecedence | src/org/moeaframework/algorithm/SMSEMOA.java:200-202 | A lower rank always wins, and equal ranks are decided by fitness in the preferred direction |
| SmsEmoa.CompareIsOrder | src/org/moeaframework/algorithm/SMSEMOA.java:200-202 | The comparison is antisymmetric and transitive |
| LinearAggregate.WeightIndex | src/org/moeaframework/algorithm/single/LinearObjectiveComparator.java:54 | The index is `i` while weights last, is in bounds whenever there are weights, and is -1 with no weights |
| LinearAggregate.Effective | src/org/moeaframework/algorithm/single/LinearObjectiveComparator.java:43-44 | The effective weight vector has one weight per objective |
| LinearAggregate.EffectiveAt | src/org/moeaframework/algorithm/single/LinearObjectiveComparator.java:54 | Cutting or padding with the last weight agrees with the index rule at every position |
| LinearAggregate.CalculateFitness | src/org/moeaframework/algorithm/single/LinearObjectiveComparator.java:50-58 | It fails iff there are objectives but no weights. Zero objectives give 0; otherwise the result is the dot product with the effective weights |
| LinearAggregate.SingleWeight | src/org/moeaframework/algorithm/single/LinearObjectiveComparator.java:43-54 | With one weight `w` the fitness is `w` times the sum of the objectives |
| LinearAggregate.ExtraWeightsIgnored | src/org/moeaframework/algorithm/single/LinearObjectiveComparator.java:53-54 | Weights beyond the number of objectives make no difference |
| LinearAggregate.PaddingIsImplicit | src/org/moeaframework/algorithm/single/LinearObjectiveComparator.java:43-44 | A short weight vector behaves exactly like itself padded with its last weight |
| CompoundMutation.Construct | src/org/moeaframework/core/operator/CompoundMutation.java:32-38 | The operators are kept in exactly the order given |
| CompoundMutation.Mutate | src/org/moeaframework/core/operator/CompoundMutation.java:41-49 | The first operator receives the copy of the parent and each later one the previous output. The result is the last output, or the copy when there are no operators |
| CompoundMutation.ApplyAllConcat | src/org/moeaframework/core/operator/CompoundMutation.java:44-46 | Applying `a` then `b` equals applying `a + b` |
| CompoundMutation.Nesting | src/org/moeaframework/core/operator/CompoundMutation.java:44-46 | The compound of `[f, g]` followed by `h` equals the compound of `[f, g, h]` |

## Left out

- `UpdateDocs` file and process plumbing is not modelled: `scan`, `process`, `compile`, `execute`, `getClassPath`,
  `main`, the temporary file and `contentEqualsIgnoreEOL`. These are file-system and subprocess I/O. The lines after a
  directive are taken as a list, and the separator of `format` (`System.lineSeparator()`) is a parameter.
- The directive regular expression is not modelled as a whole. A matched directive is an already-parsed record of its
  captured groups. Only the range part is modelled, to state the round trip of the printed range.
- JavaText.EqualsIgnoreCase: folds case on ASCII and on the four non-ASCII characters whose case mapping lands on an
  ASCII letter. This is exact whenever one side is ASCII, which holds for every comparison in the modelled code.
- JavaText.ParseInt: handles no sign and no non-ASCII digits. The directive pattern only lets `[0-9]+` reach it.
- JavaText.IsWhitespace is stated on Unicode scalar values, not UTF-16 code units. No supplementary character is
  whitespace, so the answers agree.
- DocFormat.FormatBodyContents states the body's contents only with all three switches on. They are public fields that
  start out on and that the tool never turns off; for other settings `FormatBody` states only the line count and that
  every line is clean.
- DocDirectives.ClassName uses Unix path semantics. `\` is an ordinary character, the `InvalidPathException` for a NUL
  character is not modelled, and neither is the NUL check of `removeExtension`.
- DocDirectives.SkipNextCodeBlock works on the remaining lines as a list and returns how many it consumed, instead of
  advancing a reader.
- Saltelli.Generate: `N` and `D` are natural numbers. Negative arguments depend on the Sobol' generator, which is not
  part of this model, and on Java array allocation. The Sobol' matrix is required to have `N/(2D+2) + 1000` rows of
  `2D` values.
- SmsEmoa.ComputeFitnessForLastFront: returns the front as positions in the population. The call to the fitness
  evaluator is not modelled, and the rank attribute is assumed present.
- The fitness evaluators, nondominated sorting, `Population.truncate`, tournament selection, variation, `initialize`
  and `iterate` of SMS-EMOA are not modelled. Their source is not part of this model.
- SmsEmoa.ApplyConfiguration and SmsEmoa.GetConfiguration cover only the `indicator` key. `super.applyConfiguration` is
  not modelled, and the superclass's reported properties are an input map. Keys are compared exactly, since
  `TypedProperties` is not part of this model.
- SmsEmoa.GetConfiguration assumes the hypervolume-contribution evaluator is not an instance of the hypervolume
  evaluator, so it reports no key.
- SmsEmoa.CompareRankThenFitness assumes the usual behaviour of `RankComparator` (lower rank first) and
  `FitnessComparator` (the numeric order, reversed when larger values are preferred). Their source is not part of this
  model. The nondominated-sorting comparator is only named.
- LinearAggregate.CalculateFitness computes over mathematical reals. IEEE-754 rounding is not modelled.
- CompoundMutation.Construct assumes `appendOperator` appends to the operator list. `AbstractCompoundVariation` is not
  part of this model.
- `EpsilonNSGAII`, the example programs, the GUI, `JNAInfo`, `UM`, the test problems and the test classes are outside
  the modelled core.
