/** The front-matter reader: finds the header block of a markdown page
    (the lines between two "---" lines) and decodes it into a record. The
    YAML parser and the record binder are foreign libraries and come in as
    function values. */
module YamlUtils {

  import opened Wrappers
  import opened Exceptions
  import opened Paths
  import opened Strings

  const Delimiter := "---"

  /** A line opens or closes the header block when it begins with "---";
      "----" and "--- x" count as well. */
  predicate IsDelimiterLine(line: string) {
    StartsWith(line, Delimiter)
  }

  function MissingHeaderMessage(name: string): string {
    "Markdown file missing a header block: " + name
  }

  function YamlParseMessage(name: string): string {
    "Error while parsing yaml header for " + name
  }

  function HeaderVariablesMessage(name: string): string {
    "Error recognizing header variables for " + name
  }

  /** What the scan over the non-blank lines finds. */
  datatype HeaderScan =
    | NoLines                      // nothing but blank lines: `first` is null
    | NoOpening                    // the first line is not a delimiter
    | NoClosing                    // no delimiter follows the first line
    | Block(lines: seq<string>)    // the lines between the two delimiters

  /** The lines before the first delimiter line of `rest`, if it has one. */
  function BlockBeforeDelimiter(rest: seq<string>): (r: Option<seq<string>>)
    ensures r.Some? ==> |r.value| < |rest| && r.value == rest[..|r.value|] && IsDelimiterLine(rest[|r.value|])
    ensures r.Some? ==> forall j :: 0 <= j < |r.value| ==> !IsDelimiterLine(rest[j])
    ensures r.None? <==> forall j :: 0 <= j < |rest| ==> !IsDelimiterLine(rest[j])
  {
    if rest == [] then None
    else if IsDelimiterLine(rest[0]) then Some([])
    else
      match BlockBeforeDelimiter(rest[1..])
      case None => None
      case Some(b) => Some([rest[0]] + b)
  }

  /** The header block of a page, given its non-blank lines in order. */
  function ScanHeader(lines: seq<string>): (r: HeaderScan)
    ensures r == NoLines <==> lines == []
    ensures r == NoOpening <==> lines != [] && !IsDelimiterLine(lines[0])
    ensures r == NoClosing <==>
      lines != [] && IsDelimiterLine(lines[0]) && forall j :: 1 <= j < |lines| ==> !IsDelimiterLine(lines[j])
    ensures r.Block? ==>
      && IsDelimiterLine(lines[0])
      && 1 + |r.lines| < |lines|
      && r.lines == lines[1..1 + |r.lines|]
      && IsDelimiterLine(lines[1 + |r.lines|])
      && forall j :: 0 <= j < |r.lines| ==> !IsDelimiterLine(r.lines[j])
  {
    if lines == [] then NoLines
    else if !IsDelimiterLine(lines[0]) then NoOpening
    else
      match BlockBeforeDelimiter(lines[1..])
      case None => NoClosing
      case Some(b) => Block(b)
  }

  /** What ExtractHeaderText returns or throws for a page's text. */
  function HeaderText(filename: Path, markdown: string): Result<string, Error> {
    match ScanHeader(NonBlank(Split(markdown)))
    case NoLines => Failure(NullReference)
    case NoOpening => Failure(InvalidOperation(MissingHeaderMessage(Name(filename))))
    case NoClosing => Failure(InvalidOperation(MissingHeaderMessage(Name(filename))))
    case Block(b) => Success(Lines(b, NewLine))
  }

  /** Splits the text into lines, drops the blank ones, checks that the first
      is a delimiter and collects the lines up to the next delimiter, each
      followed by a line terminator. */
  method ExtractHeaderText(filename: Path, markdown: string) returns (r: Result<string, Error>)
    ensures r == HeaderText(filename, markdown)
  {
    var lines := NonBlank(Split(markdown));
    if |lines| == 0 {
      return Failure(NullReference);
    }
    var first := lines[0];
    if IsDelimiterLine(first) {
      var sb := "";
      var next := lines[1..];
      var i := 0;
      while i < |next|
        invariant 0 <= i <= |next|
        invariant forall j :: 0 <= j < i ==> !IsDelimiterLine(next[j])
        invariant sb == Lines(next[..i], NewLine)
      {
        if IsDelimiterLine(next[i]) {
          assert BlockBeforeDelimiter(next) == Some(next[..i]);
          return Success(sb);
        }
        assert next[..i + 1][..i] == next[..i];
        sb := sb + next[i] + NewLine;
        i := i + 1;
      }
    }
    return Failure(InvalidOperation(MissingHeaderMessage(Name(filename))));
  }

  /** Only the three ways a scan can fail raise errors, and each raises its
      own: a page with no non-blank line faults on the null `first`, while a
      missing opening or closing delimiter is reported as a missing header. */
  lemma HeaderTextErrors(filename: Path, markdown: string)
    ensures var lines := NonBlank(Split(markdown));
      && (HeaderText(filename, markdown) == Failure(NullReference) <==>
            forall i :: 0 <= i < |Split(markdown)| ==> IsBlank(Split(markdown)[i]))
      && (HeaderText(filename, markdown) == Failure(InvalidOperation(MissingHeaderMessage(Name(filename)))) <==>
            lines != [] && (!IsDelimiterLine(lines[0]) || forall j :: 1 <= j < |lines| ==> !IsDelimiterLine(lines[j])))
  {
    NonBlankKeeps(Split(markdown));
  }

  /** The lines of a returned header are exactly the non-blank lines strictly
      between the opening line and the next delimiter line; none of them
      starts with "---". */
  lemma {:induction false} HeaderTextLines(filename: Path, markdown: string)
    requires HeaderText(filename, markdown).Success?
    ensures var lines := NonBlank(Split(markdown));
      var block := NonBlank(Split(HeaderText(filename, markdown).value));
      && 1 + |block| < |lines|
      && block == lines[1..1 + |block|]
      && IsDelimiterLine(lines[0]) && IsDelimiterLine(lines[1 + |block|])
      && forall j :: 0 <= j < |block| ==> !IsDelimiterLine(block[j]) && !IsBlank(block[j])
  {
    var pieces := Split(markdown);
    var lines := NonBlank(pieces);
    var b := ScanHeader(lines).lines;
    SplitPieces(markdown);
    NonBlankKeeps(pieces);
    forall j | 0 <= j < |b| ensures HasNoLineBreak(b[j]) && !IsBlank(b[j]) {
      assert b[j] == lines[1 + j];
      assert lines[1 + j] in pieces;
    }
    LinesSplitBack(b);
  }

  /** Non-blank lines without breaks, each followed by the platform line
      terminator, split back into themselves. */
  lemma LinesSplitBack(b: seq<string>)
    requires forall j :: 0 <= j < |b| ==> HasNoLineBreak(b[j]) && !IsBlank(b[j])
    ensures NonBlank(Split(Lines(b, NewLine))) == b
  {
    SplitLines(b, NewLine, "");
    assert Lines(b, NewLine) + "" == Lines(b, NewLine);
    NonBlankOfNonBlank(b);
  }

  /** Lines already non-blank pass the filter unchanged. */
  lemma {:induction false} NonBlankOfNonBlank(lines: seq<string>)
    requires forall j :: 0 <= j < |lines| ==> !IsBlank(lines[j])
    ensures NonBlank(lines) == lines
  {
    if lines != [] {
      NonBlankOfNonBlank(lines[1..]);
      assert [lines[0]] + lines[1..] == lines;
    }
  }

  /** A block that closes at the first delimiter after its own lines. */
  lemma {:induction false} BlockBeforeFirstDelimiter(header: seq<string>, close: string, rest: seq<string>)
    requires IsDelimiterLine(close)
    requires forall j :: 0 <= j < |header| ==> !IsDelimiterLine(header[j])
    ensures BlockBeforeDelimiter(header + [close] + rest) == Some(header)
  {
    var all := header + [close] + rest;
    assert all[|header|] == close;
    assert all[..|header|] == header;
  }

  /** Header round trip: a page written as an opening delimiter line, the
      header lines and a closing delimiter line, each ended by "\n", "\r\n"
      or "\r", then any body, yields the non-blank header lines, each ended
      by the platform line terminator. */
  lemma HeaderRoundTrip(filename: Path, open: string, header: seq<string>, close: string, eol: string, body: string)
    requires IsLineTerminator(eol)
    requires IsDelimiterLine(open) && HasNoLineBreak(open)
    requires IsDelimiterLine(close) && HasNoLineBreak(close)
    requires forall j :: 0 <= j < |header| ==> HasNoLineBreak(header[j]) && !IsDelimiterLine(header[j])
    ensures HeaderText(filename, Lines([open] + header + [close], eol) + body)
            == Success(Lines(NonBlank(header), NewLine))
  {
    var kept, rest := NonBlank(header), NonBlank(Split(body));
    var markdown := Lines([open] + header + [close], eol) + body;
    PageLines(open, header, close, eol, body);
    NonBlankKeeps(header);
    HeaderTextOfBlock(filename, markdown, open, kept, close, rest);
  }

  /** A page whose non-blank lines are a delimiter, lines that are no
      delimiters, a delimiter and anything else has those lines as header. */
  lemma HeaderTextOfBlock(filename: Path, markdown: string, open: string, kept: seq<string>, close: string, rest: seq<string>)
    requires NonBlank(Split(markdown)) == [open] + kept + [close] + rest
    requires IsDelimiterLine(open) && IsDelimiterLine(close)
    requires forall j :: 0 <= j < |kept| ==> !IsDelimiterLine(kept[j])
    ensures HeaderText(filename, markdown) == Success(Lines(kept, NewLine))
  {
    var lines := NonBlank(Split(markdown));
    DropHead(open, kept, [close], rest);
    BlockBeforeFirstDelimiter(kept, close, rest);
    assert ScanHeader(lines) == Block(kept);
  }

  lemma DropHead<T>(x: T, a: seq<T>, b: seq<T>, c: seq<T>)
    ensures ([x] + a + b + c)[0] == x && ([x] + a + b + c)[1..] == a + b + c
  {
  }

  /** The non-blank lines of such a page. */
  lemma PageLines(open: string, header: seq<string>, close: string, eol: string, body: string)
    requires IsLineTerminator(eol)
    requires IsDelimiterLine(open) && HasNoLineBreak(open)
    requires IsDelimiterLine(close) && HasNoLineBreak(close)
    requires forall j :: 0 <= j < |header| ==> HasNoLineBreak(header[j])
    ensures NonBlank(Split(Lines([open] + header + [close], eol) + body))
            == [open] + NonBlank(header) + [close] + NonBlank(Split(body))
  {
    var all := [open] + header + [close];
    assert forall j :: 0 <= j < |all| ==> HasNoLineBreak(all[j]) by {
      forall j | 0 <= j < |all| ensures HasNoLineBreak(all[j]) {
        if 0 < j < |all| - 1 { assert all[j] == header[j - 1]; }
      }
    }
    SplitLines(all, eol, body);
    DelimiterIsNotBlank(open);
    DelimiterIsNotBlank(close);
    assert NonBlank(all) == [open] + NonBlank(header) + [close] by {
      NonBlankAppend([open] + header, [close]);
      NonBlankAppend([open], header);
    }
  }

  /** Two delimiter lines with only blank lines between them make an empty
      header. */
  lemma EmptyHeader(filename: Path, open: string, blanks: seq<string>, close: string, eol: string, body: string)
    requires IsLineTerminator(eol)
    requires IsDelimiterLine(open) && HasNoLineBreak(open)
    requires IsDelimiterLine(close) && HasNoLineBreak(close)
    requires forall j :: 0 <= j < |blanks| ==> HasNoLineBreak(blanks[j]) && IsBlank(blanks[j])
    ensures HeaderText(filename, Lines([open] + blanks + [close], eol) + body) == Success("")
  {
    BlankLinesAreNotDelimiters(blanks);
    HeaderRoundTrip(filename, open, blanks, close, eol, body);
    NonBlankKeeps(blanks);
  }

  lemma BlankLinesAreNotDelimiters(blanks: seq<string>)
    requires forall j :: 0 <= j < |blanks| ==> IsBlank(blanks[j])
    ensures forall j :: 0 <= j < |blanks| ==> !IsDelimiterLine(blanks[j])
  {
    forall j | 0 <= j < |blanks| ensures !IsDelimiterLine(blanks[j]) {
      if IsDelimiterLine(blanks[j]) {
        DelimiterIsNotBlank(blanks[j]);
      }
    }
  }

  /** A delimiter line is never blank. */
  lemma DelimiterIsNotBlank(line: string)
    requires IsDelimiterLine(line)
    ensures !IsBlank(line)
  {
    assert line[..3][0] == line[0];
    assert Delimiter[0] == '-';
    assert !IsWhiteSpace(line[0]);
  }

  /** A parsed YAML document, as the untyped deserializer returns it. */
  datatype YamlNode =
    | YamlNull
    | YamlScalar(text: string)
    | YamlSequence(items: seq<YamlNode>)
    | YamlMapping(entries: seq<(YamlNode, YamlNode)>)

  /** The cast to Dictionary<object, object> succeeds on a mapping and on null. */
  predicate CastsToDictionary(node: YamlNode) {
    node.YamlMapping? || node.YamlNull?
  }

  /** ParseYaml: first the YAML parser (a parse error or a top-level value
      that is not a mapping), then the binder onto the record type (any
      failure to recognise the fields). A null document binds to a null
      record, given back as None. */
  function ParseYaml<T>(filename: Path, yaml: string,
                        deserialize: string -> Option<YamlNode>,
                        bind: YamlNode -> Option<T>): (r: Result<Option<T>, Error>)
    ensures r == Failure(InvalidOperation(YamlParseMessage(Name(filename)))) <==>
            deserialize(yaml).None? || !CastsToDictionary(deserialize(yaml).value)
    ensures r == Failure(InvalidOperation(HeaderVariablesMessage(Name(filename)))) <==>
            deserialize(yaml).Some? && deserialize(yaml).value.YamlMapping? && bind(deserialize(yaml).value).None?
    ensures r.Success? <==> deserialize(yaml).Some? && CastsToDictionary(deserialize(yaml).value)
                            && (deserialize(yaml).value.YamlMapping? ==> bind(deserialize(yaml).value).Some?)
    ensures r == Success(None) <==> deserialize(yaml) == Some(YamlNull)
    ensures r.Success? && r.value.Some? ==> r.value == bind(deserialize(yaml).value)
  {
    match deserialize(yaml)
    case None => Failure(InvalidOperation(YamlParseMessage(Name(filename))))
    case Some(data) =>
      if !CastsToDictionary(data) then Failure(InvalidOperation(YamlParseMessage(Name(filename))))
      else if data.YamlNull? then Success(None)
      else
        match bind(data)
        case None => Failure(InvalidOperation(HeaderVariablesMessage(Name(filename))))
        case Some(v) => Success(Some(v))
  }

  /** The parse stage runs first: when it fails, the binder is never consulted. */
  lemma ParseStageFirst<T>(filename: Path, yaml: string, deserialize: string -> Option<YamlNode>,
                           bind1: YamlNode -> Option<T>, bind2: YamlNode -> Option<T>)
    requires deserialize(yaml).None? || !CastsToDictionary(deserialize(yaml).value)
    ensures ParseYaml(filename, yaml, deserialize, bind1) == ParseYaml(filename, yaml, deserialize, bind2)
    ensures ParseYaml(filename, yaml, deserialize, bind1).Failure?
  {
  }

  /** What ExtractYamlHeader returns or throws. */
  function YamlHeader<T>(filename: Path, markdown: string,
                         deserialize: string -> Option<YamlNode>,
                         bind: YamlNode -> Option<T>): Result<Option<T>, Error> {
    match HeaderText(filename, markdown)
    case Failure(e) => Failure(e)
    case Success(header) => ParseYaml(filename, header, deserialize, bind)
  }

  /** The header text of the page, decoded into a record. */
  method ExtractYamlHeader<T>(filename: Path, markdown: string,
                              deserialize: string -> Option<YamlNode>,
                              bind: YamlNode -> Option<T>) returns (r: Result<Option<T>, Error>)
    ensures r == YamlHeader(filename, markdown, deserialize, bind)
  {
    var header := ExtractHeaderText(filename, markdown);
    if header.Failure? {
      return Failure(header.error);
    }
    r := ParseYaml(filename, header.value, deserialize, bind);
  }

  /** A page without a header block fails before any YAML is parsed: the
      error is the extractor's, whatever the parser and binder would do. */
  lemma MissingHeaderBeforeParsing<T>(filename: Path, markdown: string,
                                      d1: string -> Option<YamlNode>, b1: YamlNode -> Option<T>,
                                      d2: string -> Option<YamlNode>, b2: YamlNode -> Option<T>)
    requires HeaderText(filename, markdown).Failure?
    ensures YamlHeader(filename, markdown, d1, b1) == YamlHeader(filename, markdown, d2, b2)
    ensures YamlHeader(filename, markdown, d1, b1) == Failure(HeaderText(filename, markdown).error)
  {
  }
}
