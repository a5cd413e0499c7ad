/** The code-sample formatter of the documentation tool `UpdateDocs`: a line
    range of a source file is cut out, its common indentation and `//`
    comment lines are removed, tabs are expanded, and the result is wrapped
    in a Markdown fence or an HTML `<pre><![CDATA[` block. */
module DocFormat {
  import opened Results
  import opened JavaText

  datatype FileType = Markdown | Html

  /** `FormattingOptions`: the language tag (`None` for program output), the
      1-based inclusive line range, three switches that the constructor turns
      on, and the file type (`None` when the extension is not recognised). */
  datatype FormattingOptions = FormattingOptions(
    language: Option<string>,
    startingLine: int,
    endingLine: int,
    stripIndentation: bool,
    stripComments: bool,
    replaceTabs: bool,
    fileType: Option<FileType>)

  const FirstLine: int := 1
  const LastLine: int := IntMax

  /** The constructor: every switch on, no file type yet. */
  function NewOptions(language: Option<string>, startingLine: int, endingLine: int): (o: FormattingOptions)
    ensures o.stripIndentation && o.stripComments && o.replaceTabs && o.fileType.None?
    ensures o.language == language && o.startingLine == startingLine && o.endingLine == endingLine
  {
    FormattingOptions(language, startingLine, endingLine, true, true, true, None)
  }

  datatype FormatError =
    | SubListRange     // `List.subList` rejects the requested range
    | NoFirstLine      // the first line of an empty sample is requested
    | EmptyFirstLine   // `charAt(0)` on an empty first line
    | NullFileType     // `switch` on a null file type

  function Min(a: int, b: int): int {
    if a <= b then a else b
  }

  // ---------------------------------------------------------------------
  // Step 1: the line range

  /** The sub-list of lines `startingLine` to `endingLine` (1-based,
      inclusive), with the end cut to the number of lines. */
  function Slice(lines: seq<string>, startingLine: int, endingLine: int): (r: Result<seq<string>, FormatError>)
    ensures r.Success? <==> 1 <= startingLine <= Min(|lines|, endingLine) + 1
    ensures r.Failure? ==> r.error == SubListRange
    ensures r.Success? ==> |r.value| == Min(|lines|, endingLine) - startingLine + 1
    ensures r.Success? ==> forall i :: 0 <= i < |r.value| ==> r.value[i] == lines[startingLine - 1 + i]
  {
    var from := startingLine - 1;
    var to := Min(|lines|, endingLine);
    if 0 <= from <= to then Success(lines[from..to]) else Failure(SubListRange)
  }

  /** The default range `[FIRST_LINE, LAST_LINE]` keeps every line of any
      list Java can hold. */
  lemma DefaultRangeKeepsAll(lines: seq<string>)
    requires |lines| <= IntMax
    ensures Slice(lines, FirstLine, LastLine) == Success(lines)
  {
    assert lines[0..|lines|] == lines;
  }

  // ---------------------------------------------------------------------
  // Step 2: indentation

  /** Column `j` of the original lines is stripped in round `j + 1` when the
      first line has a whitespace character there and every line that is
      long enough has the same character there. */
  predicate ColumnIsIndent(lines: seq<string>, j: nat) {
    && |lines| > 0
    && j < |lines[0]|
    && IsWhitespace(lines[0][j])
    && forall i :: 1 <= i < |lines| && j < |lines[i]| ==> lines[i][j] == lines[0][j]
  }

  /** `k` is the width of the common indentation: columns `0..k-1` are
      stripped and column `k` is not. */
  predicate IsIndentWidth(lines: seq<string>, k: nat) {
    (forall j :: 0 <= j < k ==> ColumnIsIndent(lines, j)) && !ColumnIsIndent(lines, k)
  }

  /** Every line without its first `k` characters (empty when shorter). */
  function DropColumns(lines: seq<string>, k: nat): (r: seq<string>)
    ensures |r| == |lines|
  {
    seq(|lines|, i requires 0 <= i < |lines| => if |lines[i]| <= k then "" else lines[i][k..])
  }

  /** One round of indentation stripping: every line loses its first
      character, and an empty line stays empty. */
  function DropFirstChar(lines: seq<string>): (r: seq<string>)
    ensures |r| == |lines|
  {
    seq(|lines|, i requires 0 <= i < |lines| => if |lines[i]| > 0 then lines[i][1..] else "")
  }

  /** One round removes exactly one leading character from every non-empty
      line and leaves empty lines empty. */
  lemma DropFirstCharRound(lines: seq<string>)
    ensures forall i :: 0 <= i < |lines| ==>
      |DropFirstChar(lines)[i]| == (if |lines[i]| > 0 then |lines[i]| - 1 else 0) &&
      lines[i] == lines[i][..|lines[i]| - |DropFirstChar(lines)[i]|] + DropFirstChar(lines)[i]
  {
  }

  /** Indentation stripping: strip one column per round while the first
      line's first character is whitespace shared by every non-empty line. */
  function StripIndentation(lines: seq<string>): (r: Result<seq<string>, FormatError>)
    ensures r.Success? ==> |r.value| == |lines|
    ensures r.Success? ==> |r.value| > 0 && |r.value[0]| > 0 && !ColumnIsIndent(r.value, 0)
    ensures r.Failure? ==> r.error == (if |lines| == 0 then NoFirstLine else EmptyFirstLine)
    decreases if |lines| > 0 then |lines[0]| else 0
  {
    if |lines| == 0 then Failure(NoFirstLine)
    else if |lines[0]| == 0 then Failure(EmptyFirstLine)
    else if ColumnIsIndent(lines, 0) then StripIndentation(DropFirstChar(lines))
    else Success(lines)
  }

  lemma DropFirstCharShiftsColumns(lines: seq<string>, j: nat)
    ensures ColumnIsIndent(DropFirstChar(lines), j) <==> ColumnIsIndent(lines, j + 1)
  {
    var d := DropFirstChar(lines);
    if |lines| > 0 {
      assert forall i :: 0 <= i < |lines| && j < |d[i]| ==> d[i][j] == lines[i][j + 1];
      assert forall i :: 0 <= i < |lines| ==> (j < |d[i]| <==> j + 1 < |lines[i]|);
    }
  }

  lemma DropFirstCharThenColumns(lines: seq<string>, k: nat)
    ensures DropColumns(DropFirstChar(lines), k) == DropColumns(lines, k + 1)
  {
  }

  /** One round of stripping narrows the common indentation by one column. */
  lemma DropFirstCharIndentWidth(lines: seq<string>, k: nat)
    requires IsIndentWidth(lines, k) && k > 0
    ensures IsIndentWidth(DropFirstChar(lines), k - 1)
  {
    var d := DropFirstChar(lines);
    forall j | 0 <= j < k - 1
      ensures ColumnIsIndent(d, j)
    {
      DropFirstCharShiftsColumns(lines, j);
    }
    DropFirstCharShiftsColumns(lines, k - 1);
  }

  /** Stripping removes exactly the common indentation: with `k` its width,
      every line loses its first `k` characters, unless the first line is
      used up by then (or there is no line), which the source reports as an
      out-of-bounds error. */
  lemma {:induction false} StripIndentationRemovesCommonIndent(lines: seq<string>, k: nat)
    requires IsIndentWidth(lines, k)
    ensures StripIndentation(lines) ==
      if |lines| == 0 then Failure(NoFirstLine)
      else if k < |lines[0]| then Success(DropColumns(lines, k))
      else Failure(EmptyFirstLine)
    decreases k
  {
    if |lines| > 0 && |lines[0]| > 0 {
      if ColumnIsIndent(lines, 0) {
        DropFirstCharIndentWidth(lines, k);
        DropFirstCharThenColumns(lines, k - 1);
        StripIndentationRemovesCommonIndent(DropFirstChar(lines), k - 1);
      } else {
        assert DropColumns(lines, 0) == lines;
      }
    }
  }

  lemma {:induction false} IndentWidthFrom(lines: seq<string>, j: nat)
    requires forall j' :: 0 <= j' < j ==> ColumnIsIndent(lines, j')
    ensures exists k :: IsIndentWidth(lines, k)
    decreases if |lines| > 0 && j <= |lines[0]| then |lines[0]| - j else 0
  {
    if !ColumnIsIndent(lines, j) {
      assert IsIndentWidth(lines, j);
    } else {
      IndentWidthFrom(lines, j + 1);
    }
  }

  /** Every list of lines has a common-indentation width. */
  lemma IndentWidthExists(lines: seq<string>)
    ensures exists k :: IsIndentWidth(lines, k)
  {
    IndentWidthFrom(lines, 0);
  }

  // ---------------------------------------------------------------------
  // Step 3: comment lines

  /** A comment line: after trimming, it starts with two slashes. */
  predicate IsComment(line: string) {
    StartsWith(Trim(line), "//")
  }

  /** The lines that are not comment lines, in their order. */
  function StripComments(lines: seq<string>): (r: seq<string>)
    ensures |r| <= |lines|
    ensures forall x :: x in r <==> x in lines && !IsComment(x)
  {
    if |lines| == 0 then []
    else (if IsComment(lines[0]) then [] else [lines[0]]) + StripComments(lines[1..])
  }

  /** Comment removal works line by line and keeps the order: it distributes
      over concatenation. */
  lemma {:induction false} StripCommentsAppend(a: seq<string>, b: seq<string>)
    ensures StripComments(a + b) == StripComments(a) + StripComments(b)
  {
    if |a| > 0 {
      var head := if IsComment(a[0]) then [] else [a[0]];
      assert (a + b)[0] == a[0];
      assert (a + b)[1..] == a[1..] + b;
      assert StripComments(a + b) == head + StripComments(a[1..] + b);
      StripCommentsAppend(a[1..], b);
      assert StripComments(a) == head + StripComments(a[1..]);
    } else {
      assert a + b == b;
    }
  }

  lemma {:induction false} StripCommentsIdempotent(lines: seq<string>)
    ensures StripComments(StripComments(lines)) == StripComments(lines)
  {
    if |lines| > 0 {
      var head := if IsComment(lines[0]) then [] else [lines[0]];
      StripCommentsAppend(head, StripComments(lines[1..]));
      StripCommentsIdempotent(lines[1..]);
    }
  }

  // ---------------------------------------------------------------------
  // Step 4: tabs

  function TabCount(s: string): nat {
    if |s| == 0 then 0 else (if s[0] == '\t' then 1 else 0) + TabCount(s[1..])
  }

  /** Every tab of a line replaced by four spaces. */
  function ExpandTabs(s: string): (r: string)
    ensures forall i :: 0 <= i < |r| ==> r[i] != '\t'
    ensures |r| == |s| + 3 * TabCount(s)
    ensures |s| == 1 ==> r == if s[0] == '\t' then "    " else s
  {
    if |s| == 0 then ""
    else (if s[0] == '\t' then "    " else [s[0]]) + ExpandTabs(s[1..])
  }

  /** Text without tabs is left alone. */
  lemma {:induction false} ExpandTabsNoTab(s: string)
    requires forall i :: 0 <= i < |s| ==> s[i] != '\t'
    ensures ExpandTabs(s) == s
  {
    if |s| > 0 {
      ExpandTabsNoTab(s[1..]);
      assert s == [s[0]] + s[1..];
    }
  }

  lemma {:induction false} ExpandTabsAppend(a: string, b: string)
    ensures ExpandTabs(a + b) == ExpandTabs(a) + ExpandTabs(b)
  {
    if |a| > 0 {
      var head := if a[0] == '\t' then "    " else [a[0]];
      assert (a + b)[0] == a[0];
      assert (a + b)[1..] == a[1..] + b;
      ExpandTabsAppend(a[1..], b);
      assert ExpandTabs(a + b) == head + (ExpandTabs(a[1..]) + ExpandTabs(b));
    } else {
      assert a + b == b;
    }
  }

  /** A tab between two pieces of text becomes four spaces, and the pieces
      are expanded on their own. */
  lemma ExpandTabsOfTab(a: string, b: string)
    ensures ExpandTabs(a + "\t" + b) == ExpandTabs(a) + "    " + ExpandTabs(b)
  {
    ExpandTabsAppend(a + "\t", b);
    ExpandTabsAppend(a, "\t");
  }

  function ExpandAllTabs(lines: seq<string>): (r: seq<string>)
    ensures |r| == |lines|
  {
    seq(|lines|, i requires 0 <= i < |lines| => ExpandTabs(lines[i]))
  }

  lemma {:induction false} TrimStartSkipsTrimmable(a: string, x: string)
    requires forall i :: 0 <= i < |a| ==> IsTrimmable(a[i])
    ensures TrimStart(a + x) == TrimStart(x)
  {
    if |a| > 0 {
      assert (a + x)[0] == a[0];
      assert (a + x)[1..] == a[1..] + x;
      TrimStartSkipsTrimmable(a[1..], x);
    } else {
      assert a + x == x;
    }
  }

  lemma {:induction false} TrimStartExpandTabs(s: string)
    ensures TrimStart(ExpandTabs(s)) == ExpandTabs(TrimStart(s))
  {
    if |s| > 0 {
      var head := if s[0] == '\t' then "    " else [s[0]];
      assert ExpandTabs(s) == head + ExpandTabs(s[1..]);
      if IsTrimmable(s[0]) {
        TrimStartSkipsTrimmable(head, ExpandTabs(s[1..]));
        TrimStartExpandTabs(s[1..]);
      }
    }
  }

  /** Expanded text starts with a character other than a tab or a space
      exactly when the text does. */
  lemma ExpandTabsStartsWithChar(t: string, c: char)
    requires c != '\t' && c != ' '
    ensures (|ExpandTabs(t)| > 0 && ExpandTabs(t)[0] == c) <==> (|t| > 0 && t[0] == c)
  {
  }

  lemma ExpandTabsStartsWithSlashes(t: string)
    ensures StartsWith(ExpandTabs(t), "//") <==> StartsWith(t, "//")
  {
    var e := ExpandTabs(t);
    ExpandTabsStartsWithChar(t, '/');
    if |t| > 0 && t[0] == '/' {
      assert e == [t[0]] + ExpandTabs(t[1..]);
      ExpandTabsStartsWithChar(t[1..], '/');
      assert StartsWith(e, "//") <==> (|e| >= 2 && e[1] == '/');
      assert StartsWith(t, "//") <==> (|t| >= 2 && t[1] == '/');
    }
  }

  /** Expanding tabs turns no line into a comment line and no comment line
      into an ordinary one, so comment stripping and tab expansion may be
      applied in either order. */
  lemma ExpandTabsKeepsComment(s: string)
    ensures IsComment(ExpandTabs(s)) <==> IsComment(s)
  {
    TrimStartsWith(s, "//");
    TrimStartsWith(ExpandTabs(s), "//");
    TrimStartExpandTabs(s);
    ExpandTabsStartsWithSlashes(TrimStart(s));
  }

  // ---------------------------------------------------------------------
  // Step 5: the wrapper

  function MarkdownFence(language: Option<string>): string {
    "```" + (if language.Some? then language.value else "")
  }

  function HtmlOpen(language: Option<string>): string {
    "<pre class=\"brush: " + (if language.Some? then language.value else "plain") + "; toolbar: false;\">"
  }

  function Header(language: Option<string>, fileType: FileType): seq<string> {
    match fileType
    case Markdown => ["", MarkdownFence(language)]
    case Html => [HtmlOpen(language), "<![CDATA["]
  }

  function Trailer(fileType: FileType): seq<string> {
    match fileType
    case Markdown => ["```"]
    case Html => ["]]>", "</pre>"]
  }

  /** The body between the header and trailer of its file type. */
  function Wrap(body: seq<string>, language: Option<string>, fileType: FileType): seq<string> {
    Header(language, fileType) + body + Trailer(fileType)
  }

  /** The body of a wrapped block: everything between header and trailer. */
  function Body(block: seq<string>, fileType: FileType): seq<string>
    requires |block| >= |Header(None, fileType)| + |Trailer(fileType)|
  {
    block[2..|block| - |Trailer(fileType)|]
  }

  /** Wrapping is undone by taking the body back out, whatever the body. */
  lemma WrapBody(body: seq<string>, language: Option<string>, fileType: FileType)
    ensures |Wrap(body, language, fileType)| == |body| + (if fileType == Markdown then 3 else 4)
    ensures Body(Wrap(body, language, fileType), fileType) == body
  {
    var w := Wrap(body, language, fileType);
    assert w[2..|w| - |Trailer(fileType)|] == body;
  }

  // ---------------------------------------------------------------------
  // The whole pipeline

  /** A line the formatter may emit under `options`: no tab once tabs are
      replaced, not a comment once comments are stripped. */
  predicate CleanLine(line: string, options: FormattingOptions) {
    && (options.replaceTabs ==> forall i :: 0 <= i < |line| ==> line[i] != '\t')
    && (options.stripComments ==> !IsComment(line))
  }

  /** The range is valid and, when indentation is stripped, stripping
      succeeds. */
  predicate BodyDefined(lines: seq<string>, options: FormattingOptions) {
    && 1 <= options.startingLine <= Min(|lines|, options.endingLine) + 1
    && (options.stripIndentation ==> StripIndentation(Slice(lines, options.startingLine, options.endingLine).value).Success?)
  }

  /** The formatted body before wrapping: the range, then indentation,
      comment and tab handling as the switches say. */
  function FormatBody(lines: seq<string>, options: FormattingOptions): (r: Result<seq<string>, FormatError>)
    ensures r.Success? <==> BodyDefined(lines, options)
    ensures r.Success? ==> |r.value| <= Min(|lines|, options.endingLine) - options.startingLine + 1
    ensures r.Success? ==> forall k :: 0 <= k < |r.value| ==> CleanLine(r.value[k], options)
  {
    var sliced :- Slice(lines, options.startingLine, options.endingLine);
    var stripped :- if options.stripIndentation then StripIndentation(sliced) else Success(sliced);
    var uncommented := if options.stripComments then StripComments(stripped) else stripped;
    var body := if options.replaceTabs then ExpandAllTabs(uncommented) else uncommented;
    assert forall k :: 0 <= k < |body| ==> CleanLine(body[k], options) by {
      forall k | 0 <= k < |body|
        ensures CleanLine(body[k], options)
      {
        assert uncommented[k] in uncommented;
        if options.replaceTabs {
          ExpandTabsKeepsComment(uncommented[k]);
        }
      }
    }
    Success(body)
  }

  /** `format(List<String>, FormattingOptions)` without the final join: the
      formatted body between the header and trailer of its file type. */
  function FormatLines(lines: seq<string>, options: FormattingOptions): (r: Result<seq<string>, FormatError>)
    ensures r.Success? <==> BodyDefined(lines, options) && options.fileType.Some?
    ensures r.Failure? && BodyDefined(lines, options) ==> r.error == NullFileType
    ensures r.Success? ==>
      var block := r.value;
      var fileType := options.fileType.value;
      && |block| >= |Header(options.language, fileType)| + |Trailer(fileType)|
      && block[..2] == Header(options.language, fileType)
      && block[|block| - |Trailer(fileType)|..] == Trailer(fileType)
      && |Body(block, fileType)| <= Min(|lines|, options.endingLine) - options.startingLine + 1
      && Body(block, fileType) == FormatBody(lines, options).value
      && forall k :: 0 <= k < |Body(block, fileType)| ==> CleanLine(Body(block, fileType)[k], options)
  {
    var body :- FormatBody(lines, options);
    if options.fileType.None? then Failure(NullFileType)
    else
      var block := Wrap(body, options.language, options.fileType.value);
      WrapBody(body, options.language, options.fileType.value);
      Success(block)
  }

  /** With all three switches on, as every directive sets them, the body is
      the selected range with its common indentation of width `k` removed,
      its comment lines dropped and its tabs expanded, in that order; an
      empty range, or a first line no longer than `k`, is an error. */
  lemma FormatBodyContents(lines: seq<string>, options: FormattingOptions, k: nat)
    requires options.stripIndentation && options.stripComments && options.replaceTabs
    requires Slice(lines, options.startingLine, options.endingLine).Success?
    requires IsIndentWidth(Slice(lines, options.startingLine, options.endingLine).value, k)
    ensures FormatBody(lines, options) ==
      var slice := Slice(lines, options.startingLine, options.endingLine).value;
      if |slice| == 0 then Failure(NoFirstLine)
      else if k < |slice[0]| then Success(ExpandAllTabs(StripComments(DropColumns(slice, k))))
      else Failure(EmptyFirstLine)
  {
    StripIndentationRemovesCommonIndent(Slice(lines, options.startingLine, options.endingLine).value, k);
  }

  /** The whole block for a directive's options: the header of the file
      type, the body of `FormatBodyContents`, and the trailer. */
  lemma FormatLinesContents(lines: seq<string>, options: FormattingOptions, k: nat)
    requires options.stripIndentation && options.stripComments && options.replaceTabs
    requires options.fileType.Some?
    requires Slice(lines, options.startingLine, options.endingLine).Success?
    requires IsIndentWidth(Slice(lines, options.startingLine, options.endingLine).value, k)
    requires |Slice(lines, options.startingLine, options.endingLine).value| > 0
    requires k < |Slice(lines, options.startingLine, options.endingLine).value[0]|
    ensures FormatLines(lines, options) ==
      var slice := Slice(lines, options.startingLine, options.endingLine).value;
      Success(Wrap(ExpandAllTabs(StripComments(DropColumns(slice, k))), options.language, options.fileType.value))
  {
    FormatBodyContents(lines, options, k);
  }

  /** `format(List, FormattingOptions)`: the formatted lines joined with the
      platform line separator `separator`. */
  function Format(lines: seq<string>, options: FormattingOptions, separator: string): (r: Result<string, FormatError>)
    ensures r.Success? <==> FormatLines(lines, options).Success?
  {
    var block :- FormatLines(lines, options);
    Success(Join(block, separator))
  }

  /** `format(String, FormattingOptions)`: the content is first cut into the
      lines `readLine` reports. */
  function FormatContent(content: string, options: FormattingOptions, separator: string): Result<string, FormatError> {
    Format(ReadLines(content), options, separator)
  }

  // ---------------------------------------------------------------------
  // Reading the output back

  /** No line holds a line terminator. */
  predicate AllClean(lines: seq<string>) {
    forall k :: 0 <= k < |lines| ==> NoTerminator(lines[k])
  }

  lemma {:induction false} StripIndentationClean(lines: seq<string>)
    requires AllClean(lines)
    ensures StripIndentation(lines).Success? ==> AllClean(StripIndentation(lines).value)
    decreases if |lines| > 0 then |lines[0]| else 0
  {
    if |lines| > 0 && |lines[0]| > 0 && ColumnIsIndent(lines, 0) {
      var d := DropFirstChar(lines);
      assert forall k :: 0 <= k < |d| && |lines[k]| > 0 ==> d[k] == lines[k][1..];
      StripIndentationClean(d);
    }
  }

  lemma {:induction false} ExpandTabsClean(s: string)
    requires NoTerminator(s)
    ensures NoTerminator(ExpandTabs(s))
  {
    if |s| > 0 {
      ExpandTabsClean(s[1..]);
      var head := if s[0] == '\t' then "    " else [s[0]];
      assert ExpandTabs(s) == head + ExpandTabs(s[1..]);
    }
  }

  /** The formatter never introduces a line terminator into a line. */
  lemma FormatBodyClean(lines: seq<string>, options: FormattingOptions)
    requires AllClean(lines)
    requires FormatBody(lines, options).Success?
    ensures AllClean(FormatBody(lines, options).value)
  {
    var sliced := Slice(lines, options.startingLine, options.endingLine).value;
    assert AllClean(sliced);
    var stripped := if options.stripIndentation then StripIndentation(sliced).value else sliced;
    StripIndentationClean(sliced);
    var uncommented := if options.stripComments then StripComments(stripped) else stripped;
    assert AllClean(uncommented) by {
      forall k | 0 <= k < |uncommented|
        ensures NoTerminator(uncommented[k])
      {
        assert uncommented[k] in uncommented;
      }
    }
    forall k | 0 <= k < |uncommented| {
      ExpandTabsClean(uncommented[k]);
    }
  }

  lemma {:induction false} NoTerminatorAppend(a: string, b: string)
    requires NoTerminator(a) && NoTerminator(b)
    ensures NoTerminator(a + b)
  {
    assert forall i :: 0 <= i < |a + b| ==> (a + b)[i] == if i < |a| then a[i] else b[i - |a|];
  }

  lemma HtmlOpenClean(language: Option<string>)
    requires language.Some? ==> NoTerminator(language.value)
    ensures NoTerminator(HtmlOpen(language))
  {
    var a := "<pre class=\"brush: ";
    var b := if language.Some? then language.value else "plain";
    var c := "; toolbar: false;\">";
    assert NoTerminator(a);
    assert NoTerminator(c);
    NoTerminatorAppend(a, b);
    NoTerminatorAppend(a + b, c);
  }

  lemma HeaderClean(language: Option<string>, fileType: FileType)
    requires language.Some? ==> NoTerminator(language.value)
    ensures AllClean(Header(language, fileType))
  {
    match fileType
    case Markdown =>
      NoTerminatorAppend("```", if language.Some? then language.value else "");
    case Html =>
      HtmlOpenClean(language);
  }

  lemma AllCleanAppend(a: seq<string>, b: seq<string>)
    requires AllClean(a) && AllClean(b)
    ensures AllClean(a + b)
  {
  }

  lemma WrapClean(body: seq<string>, language: Option<string>, fileType: FileType)
    requires AllClean(body)
    requires language.Some? ==> NoTerminator(language.value)
    ensures AllClean(Wrap(body, language, fileType))
  {
    HeaderClean(language, fileType);
    AllCleanAppend(Header(language, fileType), body);
    AllCleanAppend(Header(language, fileType) + body, Trailer(fileType));
  }

  /** The formatted block holds no line terminator and ends with a
      non-empty trailer line. */
  lemma FormatLinesClean(lines: seq<string>, options: FormattingOptions)
    requires AllClean(lines)
    requires options.language.Some? ==> NoTerminator(options.language.value)
    requires FormatLines(lines, options).Success?
    ensures AllClean(FormatLines(lines, options).value)
    ensures |FormatLines(lines, options).value| > 0
    ensures |FormatLines(lines, options).value[|FormatLines(lines, options).value| - 1]| > 0
  {
    var body := FormatBody(lines, options).value;
    FormatBodyClean(lines, options);
    var fileType := options.fileType.value;
    var block := Wrap(body, options.language, fileType);
    assert FormatLines(lines, options).value == block;
    WrapClean(body, options.language, fileType);
    assert block[|block| - 1] == Trailer(fileType)[|Trailer(fileType)| - 1];
  }

  /** Joining the formatted block with the platform line separator and
      reading it back line by line yields exactly the formatted lines: the
      output of `format(String, ...)` holds no extra or merged lines,
      provided the language tag has no line terminator. */
  lemma FormatReadsBack(content: string, options: FormattingOptions, separator: string)
    requires IsLineSeparator(separator)
    requires options.language.Some? ==> NoTerminator(options.language.value)
    requires FormatLines(ReadLines(content), options).Success?
    ensures FormatContent(content, options, separator).Success?
    ensures ReadLines(FormatContent(content, options, separator).value) == FormatLines(ReadLines(content), options).value
  {
    var lines := ReadLines(content);
    FormatLinesClean(lines, options);
    ReadLinesOfJoin(FormatLines(lines, options).value, separator);
  }
}
