/**
 * The service listing: the parse of `launchctl list` output into
 * `{pid, status, label}` records, as the services endpoint performs it on the
 * command's standard output.
 */
module ServiceList {
  import opened Optional
  import opened Text
  import opened Delimited
  import opened Tokens

  /** One row of the listing; `name` is the service label (`label` is a Dafny keyword). */
  datatype Service = Service(pid: string, status: string, name: string)

  /** The pid shown for a service whose first column is a dash. */
  const NotRunning: string := "Not Running"

  /** The pid column: a dash means the service has no process. */
  function PidOf(token: string): (r: string)
    ensures r != "-"
    ensures token != "-" ==> r == token
  {
    if token == "-" then NotRunning else token
  }

  /**
   * One line of output: skipped when blank or shorter than three tokens;
   * otherwise pid, status, and the remaining tokens rejoined with single spaces.
   */
  function ParseLine(line: string): (r: Option<Service>)
    ensures r.None? <==> |Words(line)| < 3
  {
    WordsEmptyIffBlank(line);
    if Trim(line) == [] then None else FromTokens(Words(line))
  }

  /** The record for a line's tokens: pid, status, and the rest rejoined; fewer than three tokens give none. */
  function FromTokens(parts: seq<string>): Option<Service> {
    if |parts| >= 3 then Some(Service(PidOf(parts[0]), parts[1], Join(parts[2..], " ")))
    else None
  }

  /** Every line in order, keeping the records of the lines that parse. */
  function ParseLines(lines: seq<string>): (services: seq<Service>)
    ensures |services| <= |lines|
    decreases |lines|
  {
    if lines == [] then []
    else
      match ParseLine(lines[0])
      case Some(s) => [s] + ParseLines(lines[1..])
      case None => ParseLines(lines[1..])
  }

  /** The whole output: split on newlines, the header line dropped. */
  function Parse(stdout: string): (r: seq<Service>)
    ensures |r| <= multiset(stdout)['\n']
  {
    SplitCount(stdout, '\n');
    ParseLines(Split(stdout, '\n')[1..])
  }

  // ---------------------------------------------------------------------
  // Per-line behaviour

  /**
   * The fields of a parsed record: the pid is the first token unless that is a
   * dash, the status is the second token, and the label is a normalized string
   * whose own tokens are exactly the third and later tokens, in order.
   */
  lemma ParseLineFields(line: string)
    requires |Words(line)| >= 3
    ensures ParseLine(line).Some?
    ensures var parts := Words(line);
      var s := ParseLine(line).value;
      && (s.pid == NotRunning <==> parts[0] == "-")
      && (parts[0] != "-" ==> s.pid == parts[0])
      && s.status == parts[1]
      && Words(s.name) == parts[2..]
      && Normalized(s.name)
  {
    var parts := Words(line);
    NotRunningIsNoToken();
    assert IsWord(parts[0]);
    WordsOfJoin(parts[2..]);
    JoinNormalized(parts[2..]);
  }

  /** "Not Running" contains a space, so no token can be mistaken for it. */
  lemma NotRunningIsNoToken()
    ensures !IsWord(NotRunning)
  {
    assert NotRunning[3] == ' ';
  }

  // ---------------------------------------------------------------------
  // Line structure of the whole output

  /** The listing is line-oriented: the records of two blocks of lines are concatenated. */
  lemma {:induction false} ParseLinesAppend(a: seq<string>, b: seq<string>)
    ensures ParseLines(a + b) == ParseLines(a) + ParseLines(b)
    decreases |a|
  {
    if a == [] {
      assert a + b == b;
    } else {
      var ab := a + b;
      assert ab[0] == a[0];
      assert ab[1..] == a[1..] + b;
      ParseLinesAppend(a[1..], b);
      match ParseLine(a[0])
      case Some(s) =>
        calc {
          ParseLines(ab);
          [s] + ParseLines(a[1..] + b);
          [s] + (ParseLines(a[1..]) + ParseLines(b));
          ([s] + ParseLines(a[1..])) + ParseLines(b);
        }
      case None =>
    }
  }

  lemma ParseLinesCons(line: string, lines: seq<string>, s: Service)
    requires ParseLine(line) == Some(s)
    ensures ParseLines([line] + lines) == [s] + ParseLines(lines)
  {
    assert ([line] + lines)[1..] == lines;
  }

  /** The first line is dropped whatever it holds: only the text after it matters. */
  lemma HeaderDiscarded(header: string, body: string)
    requires '\n' !in header
    ensures Parse(header + "\n" + body) == ParseLines(Split(body, '\n'))
  {
    SplitFirst(header, '\n', body);
  }

  /** Output without any newline is all header and yields nothing. */
  lemma HeaderOnly(stdout: string)
    requires '\n' !in stdout
    ensures Parse(stdout) == []
  {
    SplitNoSeparator(stdout, '\n');
  }

  // ---------------------------------------------------------------------
  // Round trip: writing records out as a listing and parsing them back

  /** A record the parser can produce: a bare pid token (or "Not Running"), a status token, a normalized label. */
  ghost predicate WellFormed(s: Service) {
    && (s.pid == NotRunning || (IsWord(s.pid) && s.pid != "-"))
    && IsWord(s.status)
    && Normalized(s.name)
  }

  /** Every record the parser produces is well formed. */
  lemma ParsedRecordWellFormed(line: string)
    requires ParseLine(line).Some?
    ensures WellFormed(ParseLine(line).value)
  {
    ParseLineFields(line);
  }

  /** The pid column written back: a dash for a stopped service. */
  function PidToken(pid: string): string {
    if pid == NotRunning then "-" else pid
  }

  /** A record written back as a listing row, single spaces between columns. */
  function FormatLine(s: Service): string {
    PidToken(s.pid) + " " + (s.status + " " + s.name)
  }

  /** The tokens of a well-formed record's row: pid, status, then the label's own tokens. */
  lemma FormatLineWords(s: Service)
    requires WellFormed(s)
    ensures Words(FormatLine(s)) == [PidToken(s.pid)] + ([s.status] + Words(s.name))
  {
    var p := PidToken(s.pid);
    assert IsWord(p) by {
      if s.pid == NotRunning {
        assert p == "-";
      }
    }
    WordThenJoin(s.status, s.name);
    WordThenJoin(p, s.status + " " + s.name);
  }

  /** Writing a pid column back and reading it again gives the pid, as long as it is not a bare dash. */
  lemma PidRoundTrip(pid: string)
    requires pid == NotRunning || pid != "-"
    ensures PidOf(PidToken(pid)) == pid
  {
  }

  /** A line whose tokens are a pid, a status and at least one more token parses into those fields. */
  lemma ParseLineOfWords(line: string, pid: string, status: string, rest: seq<string>)
    requires Words(line) == [pid] + ([status] + rest) && |rest| >= 1
    ensures ParseLine(line) == Some(Service(PidOf(pid), status, Join(rest, " ")))
  {
    TokensMeanNotBlank(line);
    FromTokensOf(pid, status, rest);
  }

  /** Three or more tokens make a record of the first two and the rest rejoined. */
  lemma FromTokensOf(pid: string, status: string, rest: seq<string>)
    requires |rest| >= 1
    ensures FromTokens([pid] + ([status] + rest)) == Some(Service(PidOf(pid), status, Join(rest, " ")))
  {
    var parts := [pid] + ([status] + rest);
    assert parts[2..] == rest;
  }

  /**
   * A row of `launchctl list` output parses into its columns whatever
   * whitespace separates and surrounds them (launchctl separates them with tabs).
   */
  lemma ParseSpacedLine(lead: string, ws: seq<string>, gaps: seq<string>, trail: string)
    requires |ws| == |gaps| + 1 && |ws| >= 3
    requires forall i :: 0 <= i < |ws| ==> IsWord(ws[i])
    requires forall i :: 0 <= i < |gaps| ==> gaps[i] != [] && IsBlank(gaps[i])
    requires IsBlank(lead) && IsBlank(trail)
    ensures ParseLine(lead + Spaced(ws, gaps) + trail) == Some(Service(PidOf(ws[0]), ws[1], Join(ws[2..], " ")))
  {
    WordsOfSpaced(lead, ws, gaps, trail);
    assert ws == [ws[0]] + ([ws[1]] + ws[2..]);
    ParseLineOfWords(lead + Spaced(ws, gaps) + trail, ws[0], ws[1], ws[2..]);
  }

  /** The row launchctl prints, `pid TAB status TAB label`, parses into exactly those three columns. */
  lemma TabSeparatedRow(pid: string, status: string, name: string)
    requires IsWord(pid) && IsWord(status) && IsWord(name)
    ensures ParseLine(pid + "\t" + status + "\t" + name) == Some(Service(PidOf(pid), status, name))
  {
    var ws, gaps := [pid, status, name], ["\t", "\t"];
    assert Spaced(ws, gaps) == pid + "\t" + (status + "\t" + name);
    assert [] + Spaced(ws, gaps) + [] == pid + "\t" + status + "\t" + name;
    ParseSpacedLine([], ws, gaps, []);
    assert ws[2..] == [name];
  }

  /** A line with a token does not trim to nothing. */
  lemma TokensMeanNotBlank(line: string)
    requires Words(line) != []
    ensures Trim(line) != []
  {
    WordsEmptyIffBlank(line);
  }

  /** Parsing a formatted well-formed record gives the record back. */
  lemma ParseFormatLine(s: Service)
    requires WellFormed(s)
    ensures ParseLine(FormatLine(s)) == Some(s)
  {
    FormatLineWords(s);
    NormalizedIsJoinOfWords(s.name);
    ParseLineOfWords(FormatLine(s), PidToken(s.pid), s.status, Words(s.name));
    PidRoundTrip(s.pid);
  }

  /** A well-formed record's row has no line break in it. */
  lemma FormatLineSingleLine(s: Service)
    requires WellFormed(s)
    ensures '\n' !in FormatLine(s)
  {
  }

  /** Rows for a list of records, one per line. */
  function FormatLines(services: seq<Service>): seq<string>
    ensures |FormatLines(services)| == |services|
  {
    seq(|services|, i requires 0 <= i < |services| => FormatLine(services[i]))
  }

  /** Parsing the formatted rows gives back every record, in order. */
  lemma {:induction false} ParseFormatLines(services: seq<Service>)
    requires forall i :: 0 <= i < |services| ==> WellFormed(services[i])
    ensures ParseLines(FormatLines(services)) == services
    decreases |services|
  {
    if services != [] {
      var rest := services[1..];
      FormatLinesCons(services);
      ParseFormatLine(services[0]);
      ParseFormatLines(rest);
      ParseLinesCons(FormatLine(services[0]), FormatLines(rest), services[0]);
      assert services == [services[0]] + rest;
    }
  }

  /** The rows of a non-empty list: the first record's row, then the rows of the rest. */
  lemma FormatLinesCons(services: seq<Service>)
    requires services != []
    ensures FormatLines(services) == [FormatLine(services[0])] + FormatLines(services[1..])
  {
    var lines := FormatLines(services);
    assert lines[1..] == FormatLines(services[1..]);
    assert lines == [lines[0]] + lines[1..];
  }

  /** A full listing: any header line, then one row per record. */
  function Format(header: string, services: seq<Service>): string {
    header + "\n" + Join(FormatLines(services), "\n")
  }

  /** Parsing a formatted listing recovers exactly the records written. */
  lemma ParseFormat(header: string, services: seq<Service>)
    requires '\n' !in header
    requires forall i :: 0 <= i < |services| ==> WellFormed(services[i])
    ensures Parse(Format(header, services)) == services
  {
    var lines := FormatLines(services);
    HeaderDiscarded(header, Join(lines, "\n"));
    if services == [] {
      assert Join(lines, "\n") == [];
      assert Split([], '\n') == [[]];
      assert ParseLine([]) == None;
    } else {
      forall i | 0 <= i < |lines| ensures '\n' !in lines[i] {
        FormatLineSingleLine(services[i]);
      }
      SplitJoin(lines, '\n');
      ParseFormatLines(services);
    }
  }
}
