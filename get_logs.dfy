/**
 * The `GetLogs` class: `#make_glob_pattern` sets `globPattern`, `list`
 * globs and orders `files`, and `get` either hands back an inert empty
 * response or records the options of a streaming read in `readOpts`.
 *
 * The clock (`now`), the "count units ago" computation (`sinceOf`) and the
 * filesystem glob (`glob`, given the logs directory as its working
 * directory and the pattern) are parameters; the component order that the
 * date format yields is fixed when the object is built.
 */
module GetLogsApi {
  import opened Wrappers
  import opened DurationParse
  import opened Calendar
  import opened Walk
  import opened Fragment
  import opened Pattern
  import opened FileOrder

  /** `resp.files` of the empty response. */
  datatype FilesInfo = FilesInfo(current: Option<string>, selected: seq<string>)

  /** The response object `get` returns when there is nothing to read. */
  datatype Response = Response(files: FilesInfo, fileNum: nat, lineNum: nat, lines: Option<seq<string>>)

  /** What `this.readOpts` holds: the files, how many lines to read, and the line parser. */
  datatype ReadOpts = ReadOpts(files: seq<string>, lines: nat, parser: string -> string)

  /** The value of `get`: the inert response, or a streaming reader built on the read options. */
  datatype Session = Inert(response: Response) | Reader(opts: ReadOpts)

  const EmptyResponse: Response :=
    Response(FilesInfo(None, []), 0, 0, None)

  /** `resp.read()` on the inert response: the response itself. */
  function Read(resp: Response): (r: Response)
    ensures resp == EmptyResponse ==> r == EmptyResponse
  {
    resp
  }

  /** n calls of `read()` in a row. */
  function ReadTimes(resp: Response, n: nat): Response
  {
    if n == 0 then resp else Read(ReadTimes(resp, n - 1))
  }

  /** However often `read()` is called, the inert response stays empty and the same. */
  lemma {:induction false} ReadKeepsEmpty(n: nat)
    ensures ReadTimes(EmptyResponse, n) == EmptyResponse
    ensures ReadTimes(EmptyResponse, n).fileNum == 0 && ReadTimes(EmptyResponse, n).lineNum == 0
    ensures ReadTimes(EmptyResponse, n).lines.None? && ReadTimes(EmptyResponse, n).files.current.None?
    ensures ReadTimes(EmptyResponse, n).files.selected == []
  {
    if n > 0 {
      ReadKeepsEmpty(n - 1);
    }
  }

  /** `opts.parser || function (v) { return v; }`. */
  function ParserOrDefault(parser: Option<string -> string>): (f: string -> string)
    ensures parser.None? ==> forall line :: f(line) == line
    ensures parser.Some? ==> forall line :: f(line) == parser.value(line)
  {
    if parser.Some? then parser.value else line => line
  }

  class GetLogs {
    const logsDir: string
    /** `dateOrder(this.options.dateFormat)`: the component names in the order the date format writes them. */
    const dateOrder: seq<string>
    var globPattern: string
    var files: seq<string>
    var readOpts: Option<ReadOpts>

    constructor(logsDir: string, dateOrder: seq<string>)
      ensures this.logsDir == logsDir && this.dateOrder == dateOrder
      ensures globPattern == "" && files == [] && readOpts.None?
    {
      this.logsDir := logsDir;
      this.dateOrder := dateOrder;
      globPattern := "";
      files := [];
      readOpts := None;
    }

    /**
     * `#make_glob_pattern`: on a duration that does not parse, fails with
     * "Wrong duration formatting" before touching anything; otherwise sets
     * `globPattern` to the pattern of the walk from now back to since.
     */
    method MakeGlobPattern(duration: string, nameFormat: string, now: DateTime, sinceOf: Duration -> DateTime)
      returns (err: Option<string>)
      modifies this
      ensures ParseDuration(duration).Err? ==> err == Some(WrongDuration) && globPattern == old(globPattern)
      ensures ParseDuration(duration).Ok? ==>
        err.None? && globPattern == GlobPattern(nameFormat, dateOrder, now, sinceOf(ParseDuration(duration).value))
      ensures files == old(files) && readOpts == old(readOpts)
    {
      var parsed := ParseDuration(duration);
      if parsed.Err? {
        return Some(parsed.message);
      }
      var since := sinceOf(parsed.value);
      var sets := CollectComponents(now, since);
      ComponentsNamed(Window(now, since));
      var patterns := RenderPatterns(sets, ComponentNames);
      var orderedPat := OrderPatterns(dateOrder, patterns);
      globPattern := ReplaceDate(nameFormat, Text.Join(orderedPat, "-"));
      err := None;
    }

    /**
     * `list`: builds the pattern, globs it, sorts the result ascending and
     * reverses it for "DESC".
     */
    method List(duration: string, nameFormat: string, sort: string, now: DateTime,
                sinceOf: Duration -> DateTime, glob: (string, string) -> seq<string>)
      returns (r: Result<seq<string>>)
      modifies this
      ensures ParseDuration(duration).Err? ==>
        r == Err(WrongDuration) && globPattern == old(globPattern) && files == old(files)
      ensures ParseDuration(duration).Ok? ==>
        globPattern == GlobPattern(nameFormat, dateOrder, now, sinceOf(ParseDuration(duration).value))
        && files == Ordered(glob(logsDir, globPattern), sort) && r == Ok(files)
      ensures readOpts == old(readOpts)
    {
      var err := MakeGlobPattern(duration, nameFormat, now, sinceOf);
      if err.Some? {
        return Err(err.value);
      }
      files := glob(logsDir, globPattern);
      files := SortAscending(files);
      if sort == "DESC" {
        files := Reverse(files);
      }
      r := Ok(files);
    }

    /**
     * `get`: lists the files; with none, returns the inert empty response
     * and leaves `readOpts` alone; otherwise records the files, the line
     * count and the parser (the identity when none is given) and returns a
     * reader on them.
     */
    method Get(duration: string, nameFormat: string, sort: string, lines: nat, parser: Option<string -> string>,
               now: DateTime, sinceOf: Duration -> DateTime, glob: (string, string) -> seq<string>)
      returns (r: Result<Session>)
      requires lines >= 1
      modifies this
      ensures ParseDuration(duration).Err? ==>
        r.Err? && r.message == WrongDuration
        && globPattern == old(globPattern) && files == old(files) && readOpts == old(readOpts)
      ensures ParseDuration(duration).Ok? ==>
        globPattern == GlobPattern(nameFormat, dateOrder, now, sinceOf(ParseDuration(duration).value))
        && files == Ordered(glob(logsDir, globPattern), sort)
      ensures ParseDuration(duration).Ok? && files == [] ==>
        r.Ok? && r.value.Inert? && r.value.response == EmptyResponse && readOpts == old(readOpts)
      ensures ParseDuration(duration).Ok? && files != [] ==>
        r.Ok? && r.value.Reader? && readOpts.Some? && r.value.opts == readOpts.value
        && readOpts.value.files == files && readOpts.value.lines == lines
        && readOpts.value.parser == ParserOrDefault(parser)
    {
      var listed := List(duration, nameFormat, sort, now, sinceOf, glob);
      if listed.Err? {
        return Err(listed.message);
      }
      if |files| == 0 {
        return Ok(Inert(EmptyResponse));
      }
      var opts := ReadOpts(files, lines, ParserOrDefault(parser));
      readOpts := Some(opts);
      r := Ok(Reader(opts));
    }
  }
}
