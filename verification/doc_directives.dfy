/** The parts of `UpdateDocs` around the formatter: the file-type lookup,
    the options a directive comment produces and their printed form, the
    class name of an example program, and the scan that skips the code block
    following a directive. */
module DocDirectives {
  import opened Results
  import opened JavaText
  import opened DocFormat

  // ---------------------------------------------------------------------
  // FileType.fromExtension

  /** The extensions each file type is declared with, in declaration order. */
  function Extensions(fileType: FileType): seq<string> {
    match fileType
    case Markdown => ["md"]
    case Html => ["html", "xml"]
  }

  const AllFileTypes: seq<FileType> := [Markdown, Html]

  /** Some extension of `extensions` equals `extension`, ignoring case. */
  predicate AnyMatches(extensions: seq<string>, extension: string) {
    exists e :: e in extensions && EqualsIgnoreCase(e, extension)
  }

  /** The first of `types`, in order, with a matching extension. */
  function FindFileType(types: seq<FileType>, extension: string): (r: Option<FileType>)
    ensures r.Some? ==> r.value in types && AnyMatches(Extensions(r.value), extension)
    ensures r.None? ==> forall t :: t in types ==> !AnyMatches(Extensions(t), extension)
    ensures forall i :: 0 <= i < |types| && AnyMatches(Extensions(types[i]), extension) && NoneMatchBefore(types, i, extension) ==>
      r == Some(types[i])
  {
    if |types| == 0 then None
    else if AnyMatches(Extensions(types[0]), extension) then Some(types[0])
    else
      assert forall i :: 1 <= i < |types| && NoneMatchBefore(types, i, extension) ==>
        NoneMatchBefore(types[1..], i - 1, extension);
      FindFileType(types[1..], extension)
  }

  /** None of the first `i` types has an extension matching `extension`. */
  predicate NoneMatchBefore(types: seq<FileType>, i: nat, extension: string)
    requires i <= |types|
  {
    forall j :: 0 <= j < i ==> !AnyMatches(Extensions(types[j]), extension)
  }

  /** `FileType.fromExtension`: the file type one of whose extensions equals
      `extension` ignoring case, or `null`. */
  function FromExtension(extension: string): (r: Option<FileType>)
    ensures r.Some? <==> exists t :: t in AllFileTypes && AnyMatches(Extensions(t), extension)
    ensures r.Some? ==> AnyMatches(Extensions(r.value), extension)
  {
    FindFileType(AllFileTypes, extension)
  }

  lemma ExtensionLengths(extension: string)
    ensures AnyMatches(Extensions(Markdown), extension) ==> |extension| == 2
    ensures AnyMatches(Extensions(Html), extension) ==> |extension| == 3 || |extension| == 4
  {
  }

  /** Each declared extension, in any mix of case, leads back to its type. */
  lemma FromExtensionOfDeclared(fileType: FileType, e: string, extension: string)
    requires e in Extensions(fileType) && EqualsIgnoreCase(e, extension)
    ensures FromExtension(extension) == Some(fileType)
  {
    ExtensionLengths(extension);
    assert AnyMatches(Extensions(fileType), extension);
    assert FromExtension(extension) == FindFileType([Markdown, Html], extension);
    assert [Markdown, Html][1..] == [Html];
  }

  /** The scan only processes files whose extension is `md` or `xml`
      (ignoring case), and every such file has a file type, so the formatter
      is never handed a null type by the tool itself. */
  lemma ScannedFilesHaveFileType(extension: string)
    requires EqualsIgnoreCase(extension, "md") || EqualsIgnoreCase(extension, "xml")
    ensures FromExtension(extension).Some?
  {
    if EqualsIgnoreCase(extension, "md") {
      assert EqualsIgnoreCase("md", extension);
      FromExtensionOfDeclared(Markdown, "md", extension);
    } else {
      assert EqualsIgnoreCase("xml", extension);
      FromExtensionOfDeclared(Html, "xml", extension);
    }
  }

  // ---------------------------------------------------------------------
  // Directive comments and FormattingOptions.toString

  /** A directive comment `<!-- language:file [start:end] -->` after the
      directive pattern has matched it: the captured groups. */
  datatype Directive = Directive(
    language: string,
    filename: string,
    startGroup: Option<string>,
    endGroup: Option<string>)

  function LineNumber(group: Option<string>, default: int): Result<int, NumberFormatError> {
    if group.Some? then ParseInt(group.value) else Success(default)
  }

  /** The options built for a directive in a document with extension
      `extension`: an absent group takes the default bound, the
      file type comes from the document's extension, and the `output`
      language (any case) formats program output with no language tag. */
  function OptionsFor(directive: Directive, extension: string): (r: Result<FormattingOptions, NumberFormatError>)
    ensures r.Success? <==>
      (directive.startGroup.Some? ==> ParseInt(directive.startGroup.value).Success?) &&
      (directive.endGroup.Some? ==> ParseInt(directive.endGroup.value).Success?)
    ensures r.Success? ==>
      var o := r.value;
      && o.stripIndentation && o.stripComments && o.replaceTabs
      && o.fileType == FromExtension(extension)
      && (o.language.None? <==> EqualsIgnoreCase(directive.language, "output"))
      && (o.language.Some? ==> o.language.value == directive.language)
      && (directive.startGroup.None? ==> o.startingLine == FirstLine)
      && (directive.endGroup.None? ==> o.endingLine == LastLine)
      && (directive.startGroup.Some? ==> o.startingLine == ParseInt(directive.startGroup.value).value)
      && (directive.endGroup.Some? ==> o.endingLine == ParseInt(directive.endGroup.value).value)
      && 0 <= o.startingLine <= IntMax && 0 <= o.endingLine <= IntMax
  {
    var startingLine :- LineNumber(directive.startGroup, FirstLine);
    var endingLine :- LineNumber(directive.endGroup, LastLine);
    var options := NewOptions(Some(directive.language), startingLine, endingLine);
    var typed := options.(fileType := FromExtension(extension));
    Success(if EqualsIgnoreCase(directive.language, "output") then typed.(language := None) else typed)
  }

  /** `FormattingOptions.toString`: `[start:end]`, each bound left blank when
      it is the default. */
  function RangeText(options: FormattingOptions): string {
    "[" + (if options.startingLine == FirstLine then "" else IntToString(options.startingLine))
    + ":" + (if options.endingLine == LastLine then "" else IntToString(options.endingLine)) + "]"
  }

  predicate IsRangeSeparator(c: char) {
    c == ':' || c == '-'
  }

  function RangeSeparatorIndex(s: string): (i: nat)
    ensures i <= |s|
    ensures forall j :: 0 <= j < i ==> !IsRangeSeparator(s[j])
    ensures i < |s| ==> IsRangeSeparator(s[i])
  {
    if |s| == 0 || IsRangeSeparator(s[0]) then 0 else 1 + RangeSeparatorIndex(s[1..])
  }

  function Group(digits: string): Option<string> {
    if |digits| == 0 then None else Some(digits)
  }

  /** The range part of the directive pattern (an opening bracket, optional
      digits, a colon or hyphen, optional digits, a closing bracket): the two
      optional digit groups, or `None` when the text does not match. */
  function RangeGroups(text: string): Option<(Option<string>, Option<string>)> {
    if |text| < 3 || text[0] != '[' || text[|text| - 1] != ']' then None
    else
      var inner := text[1..|text| - 1];
      var p := RangeSeparatorIndex(inner);
      if p == |inner| || !AllDigits(inner[..p]) || !AllDigits(inner[p + 1..]) then None
      else Some((Group(inner[..p]), Group(inner[p + 1..])))
  }

  lemma {:induction false} RangeSeparatorIndexAfterDigits(digits: string, rest: string)
    requires AllDigits(digits) && |rest| > 0 && IsRangeSeparator(rest[0])
    ensures RangeSeparatorIndex(digits + rest) == |digits|
  {
    if |digits| > 0 {
      assert (digits + rest)[1..] == digits[1..] + rest;
      RangeSeparatorIndexAfterDigits(digits[1..], rest);
    }
  }

  function BoundText(bound: int, default: int): string {
    if bound == default then "" else IntToString(bound)
  }

  lemma BoundTextRoundTrip(bound: int, default: int)
    requires 0 <= bound <= IntMax && 0 <= default <= IntMax
    ensures AllDigits(BoundText(bound, default))
    ensures LineNumber(Group(BoundText(bound, default)), default) == Success(bound)
  {
    if bound != default {
      ParseIntToString(bound);
    }
  }

  /** Two digit strings around a `:` match the range part, and the groups
      are exactly those strings (absent when empty). */
  lemma RangeGroupsOf(a: string, b: string)
    requires AllDigits(a) && AllDigits(b)
    ensures RangeGroups("[" + a + ":" + b + "]") == Some((Group(a), Group(b)))
  {
    var text := "[" + a + ":" + b + "]";
    var inner := text[1..|text| - 1];
    assert inner == a + (":" + b);
    RangeSeparatorIndexAfterDigits(a, ":" + b);
    assert inner[..|a|] == a;
    assert inner[|a| + 1..] == b;
  }

  /** The printed range of options whose bounds a directive can produce is
      itself a valid directive range, and parsing it as the tool does gives
      back the same bounds. */
  lemma RangeTextRoundTrip(options: FormattingOptions)
    requires 0 <= options.startingLine <= IntMax && 0 <= options.endingLine <= IntMax
    ensures RangeGroups(RangeText(options)).Some?
    ensures
      var (g3, g4) := RangeGroups(RangeText(options)).value;
      LineNumber(g3, FirstLine) == Success(options.startingLine) &&
      LineNumber(g4, LastLine) == Success(options.endingLine)
  {
    var a := BoundText(options.startingLine, FirstLine);
    var b := BoundText(options.endingLine, LastLine);
    BoundTextRoundTrip(options.startingLine, FirstLine);
    BoundTextRoundTrip(options.endingLine, LastLine);
    assert RangeText(options) == "[" + a + ":" + b + "]";
    RangeGroupsOf(a, b);
  }

  /** The options a directive produces are recovered from their
      printed range: a directive carrying the groups of `[start:end]` as
      printed, with the same language, in a document with the same
      extension, yields the same options. */
  lemma OptionsOfPrintedRange(options: FormattingOptions, language: string, filename: string, extension: string)
    requires 0 <= options.startingLine <= IntMax && 0 <= options.endingLine <= IntMax
    requires options.stripIndentation && options.stripComments && options.replaceTabs
    requires options.fileType == FromExtension(extension)
    requires options.language == if EqualsIgnoreCase(language, "output") then None else Some(language)
    ensures RangeGroups(RangeText(options)).Some?
    ensures
      var (g3, g4) := RangeGroups(RangeText(options)).value;
      OptionsFor(Directive(language, filename, g3, g4), extension) == Success(options)
  {
    RangeTextRoundTrip(options);
  }

  // ---------------------------------------------------------------------
  // getClassName

  /** `FilenameUtils.removeExtension`: drop everything from the last `.` when
      no `/` or `\` follows it. */
  function RemoveExtension(filename: string): (r: string)
    ensures |r| <= |filename| && r == filename[..|r|]
  {
    var dot := LastIndexOf(filename, '.');
    var sep := Max(LastIndexOf(filename, '/'), LastIndexOf(filename, '\\'));
    if dot == -1 || sep > dot then filename else filename[..dot]
  }

  function Max(a: int, b: int): int {
    if a >= b then a else b
  }

  /** The last index of `c` in `s`, or -1. */
  function LastIndexOf(s: string, c: char): (i: int)
    ensures -1 <= i < |s|
    ensures i >= 0 ==> s[i] == c
    ensures forall j :: i < j < |s| ==> s[j] != c
  {
    if |s| == 0 then -1
    else if s[|s| - 1] == c then |s| - 1
    else LastIndexOf(s[..|s| - 1], c)
  }

  function SlashIndex(s: string): (i: nat)
    ensures i <= |s|
    ensures forall j :: 0 <= j < i ==> s[j] != '/'
    ensures i < |s| ==> s[i] == '/'
  {
    if |s| == 0 || s[0] == '/' then 0 else 1 + SlashIndex(s[1..])
  }

  /** The name elements of a Unix path: the text split at `/`, without the
      empty pieces that redundant or trailing slashes leave. */
  function Segments(path: string): (r: seq<string>)
    ensures forall k :: 0 <= k < |r| ==> |r[k]| > 0 && forall j :: 0 <= j < |r[k]| ==> r[k][j] != '/'
    decreases |path|
  {
    if |path| == 0 then []
    else
      var i := SlashIndex(path);
      (if i > 0 then [path[..i]] else []) + (if i < |path| then Segments(path[i + 1..]) else [])
  }

  const SourceRoots: set<string> := {"examples", "src", "test"}

  datatype PathError = EmptySubpath

  /** `getClassName` on a Unix file system: the path without extension,
      without its first element when that element is exactly `examples`,
      `src` or `test` (and the path is relative), with separators turned into
      dots. A path consisting of such an element alone makes `subpath(1, 1)`
      throw. */
  function ClassName(filename: string): (r: Result<string, PathError>)
    ensures r.Success? ==> forall j :: 0 <= j < |r.value| ==> r.value[j] != '/' && r.value[j] != '\\'
  {
    var stem := RemoveExtension(filename);
    ClassNameOfPath(|stem| > 0 && stem[0] == '/', Segments(stem))
  }

  /** The class name of a path given by whether it is absolute and by its
      name elements. */
  function ClassNameOfPath(absolute: bool, names: seq<string>): (r: Result<string, PathError>)
    ensures r.Success? ==> forall j :: 0 <= j < |r.value| ==> r.value[j] != '/' && r.value[j] != '\\'
  {
    if !absolute && |names| > 0 && names[0] in SourceRoots then
      if |names| == 1 then Failure(EmptySubpath)
      else Success(ToDots(Join(names[1..], "/")))
    else Success(ToDots((if absolute then "/" else "") + Join(names, "/")))
  }

  /** Every `/` and every backslash replaced by a dot. */
  function ToDots(s: string): (r: string)
    ensures |r| == |s|
    ensures forall j :: 0 <= j < |r| ==> r[j] != '/' && r[j] != '\\'
  {
    seq(|s|, j requires 0 <= j < |s| => if s[j] == '/' || s[j] == '\\' then '.' else s[j])
  }

  /** A path element: non-empty and free of both separators. */
  predicate CleanSegment(s: string) {
    |s| > 0 && forall j :: 0 <= j < |s| ==> s[j] != '/' && s[j] != '\\'
  }

  lemma {:induction false} SlashIndexOfClean(s: string, rest: string)
    requires forall j :: 0 <= j < |s| ==> s[j] != '/'
    requires |rest| == 0 || rest[0] == '/'
    ensures SlashIndex(s + rest) == |s|
  {
    if |s| > 0 {
      assert (s + rest)[1..] == s[1..] + rest;
      SlashIndexOfClean(s[1..], rest);
    }
  }

  lemma {:induction false} SegmentsOfJoin(names: seq<string>)
    requires forall k :: 0 <= k < |names| ==> CleanSegment(names[k])
    ensures Segments(Join(names, "/")) == names
  {
    if |names| == 1 {
      SlashIndexOfClean(names[0], "");
      assert names[0] + "" == names[0];
    } else if |names| > 1 {
      var rest := Join(names[1..], "/");
      var s := names[0] + ("/" + rest);
      assert Join(names, "/") == s;
      SlashIndexOfClean(names[0], "/" + rest);
      assert s[..|names[0]|] == names[0];
      assert s[|names[0]| + 1..] == rest;
      SegmentsOfJoin(names[1..]);
    }
  }

  lemma {:induction false} ToDotsJoin(names: seq<string>)
    requires forall k :: 0 <= k < |names| ==> CleanSegment(names[k])
    ensures ToDots(Join(names, "/")) == Join(names, ".")
  {
    if |names| == 1 {
      assert ToDots(names[0]) == names[0];
    } else if |names| > 1 {
      ToDotsJoin(names[1..]);
      var a := names[0] + "/";
      var rest := Join(names[1..], "/");
      assert Join(names, "/") == a + rest;
      assert ToDots(a + rest) == ToDots(a) + ToDots(rest);
      assert ToDots(a) == names[0] + ".";
    }
  }

  lemma RemoveExtensionOf(path: string, extension: string)
    requires forall j :: 0 <= j < |extension| ==> extension[j] != '.' && extension[j] != '/' && extension[j] != '\\'
    ensures RemoveExtension(path + "." + extension) == path
  {
    var filename := path + "." + extension;
    assert filename[|path|] == '.';
    assert forall j :: |path| < j < |filename| ==> filename[j] == extension[j - |path| - 1];
    assert LastIndexOf(filename, '.') == |path|;
    assert LastIndexOf(filename, '/') < |path|;
    assert LastIndexOf(filename, '\\') < |path|;
  }

  lemma {:induction false} JoinStartsWithFirst(names: seq<string>)
    requires |names| >= 1 && |names[0]| > 0
    ensures |Join(names, "/")| > 0 && Join(names, "/")[0] == names[0][0]
  {
    if |names| > 1 {
      assert Join(names, "/") == names[0] + "/" + Join(names[1..], "/");
    }
  }

  /** The outcome of `getClassName` as a function of the path elements. */
  function ExpectedClassName(names: seq<string>): Result<string, PathError>
    requires |names| >= 1
  {
    if names[0] in SourceRoots then
      (if |names| == 1 then Failure(EmptySubpath) else Success(Join(names[1..], ".")))
    else Success(Join(names, "."))
  }

  lemma ClassNameOfRelativePath(names: seq<string>)
    requires |names| >= 1 && forall k :: 0 <= k < |names| ==> CleanSegment(names[k])
    ensures ClassNameOfPath(false, names) == ExpectedClassName(names)
  {
    if names[0] in SourceRoots {
      if |names| > 1 {
        ToDotsJoin(names[1..]);
      }
    } else {
      ToDotsJoin(names);
      assert "" + Join(names, "/") == Join(names, "/");
    }
  }

  lemma ClassNameOfStem(filename: string, names: seq<string>)
    requires |names| >= 1 && forall k :: 0 <= k < |names| ==> CleanSegment(names[k])
    requires RemoveExtension(filename) == Join(names, "/")
    ensures ClassName(filename) == ExpectedClassName(names)
  {
    SegmentsOfJoin(names);
    JoinStartsWithFirst(names);
    ClassNameOfRelativePath(names);
  }

  /** The class name of a source file `d1/d2/.../Name.ext`: the directories
      and the name joined by dots, without the first directory exactly when
      it is one of the three source roots. */
  lemma ClassNameOfSourceFile(names: seq<string>, extension: string)
    requires |names| >= 1 && forall k :: 0 <= k < |names| ==> CleanSegment(names[k])
    requires forall j :: 0 <= j < |extension| ==> extension[j] != '.' && extension[j] != '/' && extension[j] != '\\'
    ensures ClassName(Join(names, "/") + "." + extension) ==
      if names[0] in SourceRoots then
        (if |names| == 1 then Failure(EmptySubpath) else Success(Join(names[1..], ".")))
      else Success(Join(names, "."))
  {
    RemoveExtensionOf(Join(names, "/"), extension);
    ClassNameOfStem(Join(names, "/") + "." + extension, names);
  }

  // ---------------------------------------------------------------------
  // skipNextCodeBlock

  /** The `isCodeBlock` test applied to a trimmed line. */
  predicate IsFence(fileType: FileType, trimmed: string) {
    match fileType
    case Markdown => StartsWith(trimmed, "```")
    case Html => StartsWith(trimmed, "<pre") || StartsWith(trimmed, "</pre>")
  }

  /** The index of the first non-blank line, or `|lines|`. */
  function FirstNonBlank(lines: seq<string>): (i: nat)
    ensures i <= |lines|
    ensures forall j :: 0 <= j < i ==> IsBlank(lines[j])
    ensures i < |lines| ==> !IsBlank(lines[i])
  {
    if |lines| == 0 || !IsBlank(lines[0]) then 0 else 1 + FirstNonBlank(lines[1..])
  }

  /** The index of the first fence line at or after `from`, or `|lines|`. */
  function NextFence(lines: seq<string>, fileType: FileType, from: nat): (i: nat)
    requires from <= |lines|
    ensures from <= i <= |lines|
    ensures forall j :: from <= j < i ==> !IsFence(fileType, Trim(lines[j]))
    ensures i < |lines| ==> IsFence(fileType, Trim(lines[i]))
    decreases |lines| - from
  {
    if from == |lines| || IsFence(fileType, Trim(lines[from])) then from
    else NextFence(lines, fileType, from + 1)
  }

  datatype SkipError =
    | ExpectedCodeBlock(found: string)   // a non-blank line before the opening fence
    | EndOfInput                         // the input ended before the closing fence
    | NoFileType                         // `switch` on a null file type

  /** What skipping promises, stated through the first non-blank line and
      the next fence: the number of lines consumed up to and including the
      closing fence, or the failure. */
  function SkipOutcome(lines: seq<string>, fileType: Option<FileType>): Result<nat, SkipError> {
    var open := FirstNonBlank(lines);
    if open == |lines| then Failure(EndOfInput)
    else if fileType.None? then Failure(NoFileType)
    else if !IsFence(fileType.value, Trim(lines[open])) then Failure(ExpectedCodeBlock(Trim(lines[open])))
    else
      var close := NextFence(lines, fileType.value, open + 1);
      if close == |lines| then Failure(EndOfInput) else Success(close + 1)
  }

  /** The loop of `skipNextCodeBlock` from line `i` on, as a state machine
      whose state is whether the opening fence has been read. */
  function Scan(lines: seq<string>, fileType: Option<FileType>, i: nat, inCodeBlock: bool): Result<nat, SkipError>
    requires i <= |lines|
    decreases |lines| - i
  {
    if i == |lines| then Failure(EndOfInput)
    else
      var line := Trim(lines[i]);
      if line == "" then Scan(lines, fileType, i + 1, inCodeBlock)
      else if fileType.None? then Failure(NoFileType)
      else if IsFence(fileType.value, line) then
        (if inCodeBlock then Success(i + 1) else Scan(lines, fileType, i + 1, true))
      else if !inCodeBlock then Failure(ExpectedCodeBlock(line))
      else Scan(lines, fileType, i + 1, true)
  }

  /** Inside a code block the scan stops just after the next fence. */
  lemma {:induction false} ScanInBlock(lines: seq<string>, fileType: FileType, i: nat)
    requires i <= |lines|
    ensures Scan(lines, Some(fileType), i, true) ==
      var close := NextFence(lines, fileType, i);
      if close == |lines| then Failure(EndOfInput) else Success(close + 1)
    decreases |lines| - i
  {
    if i < |lines| {
      ScanInBlock(lines, fileType, i + 1);
    }
  }

  /** Started on a line preceded only by blank lines, the scan reaches the
      outcome `SkipOutcome` describes. */
  lemma {:induction false} ScanBeforeBlock(lines: seq<string>, fileType: Option<FileType>, i: nat)
    requires i <= |lines|
    requires forall j :: 0 <= j < i ==> IsBlank(lines[j])
    ensures Scan(lines, fileType, i, false) == SkipOutcome(lines, fileType)
    decreases |lines| - i
  {
    if i == |lines| {
      FirstNonBlankIs(lines, i);
    } else if IsBlank(lines[i]) {
      ScanBeforeBlock(lines, fileType, i + 1);
    } else {
      FirstNonBlankIs(lines, i);
      if fileType.Some? {
        ScanInBlock(lines, fileType.value, i + 1);
      }
    }
  }

  lemma FirstNonBlankIs(lines: seq<string>, i: nat)
    requires i <= |lines|
    requires forall j :: 0 <= j < i ==> IsBlank(lines[j])
    requires i < |lines| ==> !IsBlank(lines[i])
    ensures FirstNonBlank(lines) == i
  {
  }

  /** `skipNextCodeBlock`: read lines after a directive, skipping blank
      lines, until a first and then a second code-fence line have been read.
      The result is the number of lines consumed. */
  method SkipNextCodeBlock(lines: seq<string>, fileType: Option<FileType>) returns (r: Result<nat, SkipError>)
    ensures r == SkipOutcome(lines, fileType)
    ensures r.Success? ==> 2 <= r.value <= |lines|
  {
    ScanBeforeBlock(lines, fileType, 0);
    var inCodeBlock := false;
    var i := 0;
    while i < |lines|
      invariant 0 <= i <= |lines|
      invariant Scan(lines, fileType, i, inCodeBlock) == SkipOutcome(lines, fileType)
    {
      var line := Trim(lines[i]);
      i := i + 1;
      if line == "" {
        continue;
      }
      if fileType.None? {
        return Failure(NoFileType);
      }
      if IsFence(fileType.value, line) {
        if inCodeBlock {
          return Success(i);
        }
        inCodeBlock := true;
      }
      if !inCodeBlock {
        return Failure(ExpectedCodeBlock(line));
      }
    }
    return Failure(EndOfInput);
  }

  lemma {:induction false} NextFenceAt(lines: seq<string>, fileType: FileType, from: nat, at: nat)
    requires from <= at < |lines|
    requires forall j :: from <= j < at ==> !IsFence(fileType, Trim(lines[j]))
    requires IsFence(fileType, Trim(lines[at]))
    ensures NextFence(lines, fileType, from) == at
    decreases at - from
  {
    if from < at {
      NextFenceAt(lines, fileType, from + 1, at);
    }
  }

  lemma TrimOfUntrimmedEnds(s: string)
    requires |s| > 0 && !IsTrimmable(s[0]) && !IsTrimmable(s[|s| - 1])
    ensures Trim(s) == s
  {
  }

  lemma FenceLineIsFence(line: string, fence: string, fileType: FileType)
    requires StartsWith(line, fence) && |fence| > 0
    requires forall i :: 0 <= i < |fence| ==> !IsTrimmable(fence[i])
    ensures StartsWith(Trim(line), fence)
  {
    TrimStartsWith(line, fence);
  }

  lemma MarkdownLiterals()
    ensures IsBlank("")
    ensures IsFence(Markdown, Trim("```"))
  {
    TrimOfUntrimmedEnds("```");
  }

  lemma HtmlLiterals()
    ensures !IsFence(Html, Trim("<![CDATA["))
    ensures !IsFence(Html, Trim("]]>"))
    ensures IsFence(Html, Trim("</pre>"))
  {
    TrimOfUntrimmedEnds("<![CDATA[");
    assert !StartsWith("<![CDATA[", "<pre") by {
      assert "<![CDATA["[1] != "<pre"[1];
    }
    assert !StartsWith("<![CDATA[", "</pre>") by {
      assert "<![CDATA["[1] != "</pre>"[1];
    }
    TrimOfUntrimmedEnds("]]>");
    TrimOfUntrimmedEnds("</pre>");
  }

  lemma OpeningFences(language: Option<string>)
    ensures IsFence(Markdown, Trim(MarkdownFence(language)))
    ensures IsFence(Html, Trim(HtmlOpen(language)))
    ensures !IsBlank(HtmlOpen(language))
  {
    FenceLineIsFence(MarkdownFence(language), "```", Markdown);
    FenceLineIsFence(HtmlOpen(language), "<pre", Html);
  }

  lemma SkipMarkdownBlock(body: seq<string>, language: Option<string>, rest: seq<string>)
    requires forall k :: 0 <= k < |body| ==> !IsFence(Markdown, Trim(body[k]))
    ensures SkipOutcome(Wrap(body, language, Markdown) + rest, Some(Markdown)) == Success(|body| + 3)
  {
    var block := Wrap(body, language, Markdown);
    var lines := block + rest;
    WrapBody(body, language, Markdown);
    MarkdownLiterals();
    OpeningFences(language);
    var last := |block| - 1;
    assert lines[0] == "" && lines[1] == MarkdownFence(language);
    assert FirstNonBlank(lines) == 1 by {
      assert FirstNonBlank(lines[1..]) == 0;
    }
    assert lines[last] == "```";
    forall j | 2 <= j < last
      ensures !IsFence(Markdown, Trim(lines[j]))
    {
      assert lines[j] == body[j - 2];
    }
    NextFenceAt(lines, Markdown, 2, last);
  }

  lemma SkipHtmlBlock(body: seq<string>, language: Option<string>, rest: seq<string>)
    requires forall k :: 0 <= k < |body| ==> !IsFence(Html, Trim(body[k]))
    ensures SkipOutcome(Wrap(body, language, Html) + rest, Some(Html)) == Success(|body| + 4)
  {
    var block := Wrap(body, language, Html);
    var lines := block + rest;
    WrapBody(body, language, Html);
    HtmlLiterals();
    OpeningFences(language);
    var last := |block| - 1;
    assert lines[0] == HtmlOpen(language);
    assert lines[1] == "<![CDATA[";
    assert lines[last - 1] == "]]>";
    assert lines[last] == "</pre>";
    forall j | 1 <= j < last
      ensures !IsFence(Html, Trim(lines[j]))
    {
      if 2 <= j < last - 1 {
        assert lines[j] == body[j - 2];
      }
    }
    NextFenceAt(lines, Html, 1, last);
  }

  /** A block freshly written by the formatter is exactly what the next run
      skips: whatever follows it, skipping consumes the whole block, provided
      no body line looks like a fence. */
  lemma SkipConsumesFormattedBlock(body: seq<string>, language: Option<string>, fileType: FileType, rest: seq<string>)
    requires forall k :: 0 <= k < |body| ==> !IsFence(fileType, Trim(body[k]))
    ensures SkipOutcome(Wrap(body, language, fileType) + rest, Some(fileType)) == Success(|Wrap(body, language, fileType)|)
  {
    WrapBody(body, language, fileType);
    match fileType
    case Markdown => SkipMarkdownBlock(body, language, rest);
    case Html => SkipHtmlBlock(body, language, rest);
  }
}
