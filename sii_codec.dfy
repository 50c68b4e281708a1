/** The `.sii` text format: the line-by-line reader of `load_file` and the
    writer of `save_file`, over the lines `readlines` returns (each keeps its
    final newline). */
module SiiCodec {
  import opened Text
  import opened Records

  /** Only lines holding this text are data lines. */
  const DataMarker := "stream_data["

  /** What the reader makes of one line. `Unquoted` is the `IndexError` path
      (no `"` in the line) and `TooFewParts` the warning path (fewer than five
      `|`-separated fields); both are skipped like non-data lines. */
  datatype LineResult = NotData | Unquoted | TooFewParts | Parsed(stream: Stream)

  /** The body of the reader's loop for one line. */
  function ParseLine(line: string): LineResult
  {
    if !Contains(line, DataMarker) then NotData
    else
      var quoted := Split(line, '"');
      if |quoted| < 2 then Unquoted
      else
        var parts := Split(quoted[1], '|');
        if |parts| < 5 then TooFewParts
        else Parsed(FromParts(parts))
  }

  /** The record the reader builds from the `|`-separated fields of a data
      line: the first five in order, and the sixth as `extra`, or "0". */
  function FromParts(parts: seq<string>): Stream
    requires |parts| >= 5
  {
    Stream(parts[0], parts[1], parts[2], parts[3], parts[4], if |parts| > 5 then parts[5] else "0")
  }

  /** The writer lists a record's fields in the order the reader takes them
      back: rebuilding a record from its fields gives the record. */
  lemma FieldsReadBack(s: Stream)
    ensures FromParts(Fields(s)) == s
  {
  }

  /** The records one line appends. */
  function Emitted(line: string): seq<Stream>
  {
    match ParseLine(line)
    case Parsed(s) => [s]
    case _ => []
  }

  /** The records a run of lines yields when each line contributes `f` of
      it, in line order. */
  function Gather(lines: seq<string>, f: string -> seq<Stream>): seq<Stream>
  {
    if |lines| == 0 then []
    else Gather(lines[..|lines| - 1], f) + f(lines[|lines| - 1])
  }

  /** The records the reader collects from `lines`, in order. */
  function ParseLines(lines: seq<string>): seq<Stream>
  {
    Gather(lines, Emitted)
  }

  lemma {:induction false} GatherConcat(a: seq<string>, b: seq<string>, f: string -> seq<Stream>)
    ensures Gather(a + b, f) == Gather(a, f) + Gather(b, f)
    decreases |b|
  {
    if |b| > 0 {
      var b' := b[..|b| - 1];
      assert (a + b)[..|a + b| - 1] == a + b';
      GatherConcat(a, b', f);
    } else {
      assert a + b == a;
    }
  }

  lemma {:induction false} GatherNone(lines: seq<string>, f: string -> seq<Stream>)
    requires forall k | 0 <= k < |lines| :: f(lines[k]) == []
    ensures Gather(lines, f) == []
  {
    if |lines| > 0 {
      var n := |lines| - 1;
      var init := lines[..n];
      forall k | 0 <= k < n
        ensures f(init[k]) == []
      {
        assert init[k] == lines[k];
      }
      GatherNone(init, f);
    }
  }

  lemma {:induction false} GatherEach(lines: seq<string>, records: seq<Stream>, f: string -> seq<Stream>)
    requires |lines| == |records|
    requires forall k | 0 <= k < |lines| :: f(lines[k]) == [records[k]]
    ensures Gather(lines, f) == records
  {
    if |lines| > 0 {
      var n := |lines| - 1;
      var init := lines[..n];
      var done := records[..n];
      forall k | 0 <= k < n
        ensures f(init[k]) == [done[k]]
      {
        assert init[k] == lines[k] && done[k] == records[k];
      }
      GatherEach(init, done, f);
      assert records == done + [records[n]];
    }
  }

  /** Reading two runs of lines reads each run in turn. */
  lemma ParseLinesConcat(a: seq<string>, b: seq<string>)
    ensures ParseLines(a + b) == ParseLines(a) + ParseLines(b)
  {
    GatherConcat(a, b, Emitted);
  }

  lemma ParseOne(line: string)
    ensures ParseLines([line]) == Emitted(line)
  {
    assert [line][..0] == [];
    assert Gather([line], Emitted) == Gather([], Emitted) + Emitted(line);
  }

  /** A data line yields one record and the lines around it are read as
      before; a line the reader skips yields nothing and reading goes on. */
  lemma LineInContext(a: seq<string>, line: string, b: seq<string>)
    ensures ParseLines(a + [line] + b) == ParseLines(a) + Emitted(line) + ParseLines(b)
  {
    ParseLinesConcat(a + [line], b);
    ParseLinesConcat(a, [line]);
    ParseOne(line);
  }

  /** Lines that are all skipped yield no records. */
  lemma NoDataLines(lines: seq<string>)
    requires forall k | 0 <= k < |lines| :: ParseLine(lines[k]) == NotData
    ensures ParseLines(lines) == []
  {
    GatherNone(lines, Emitted);
  }

  /** A line with no `[` holds no data marker. */
  lemma NoBracketNoData(line: string)
    requires '[' !in line
    ensures ParseLine(line) == NotData
  {
    if Contains(line, DataMarker) {
      ContainsHasChars(line, DataMarker, '[');
    }
  }

  /** A character that no piece holds and that is not the separator is not
      in the join. */
  lemma {:induction false} JoinExcludes(parts: seq<string>, sep: char, c: char)
    requires c != sep
    requires forall k | 0 <= k < |parts| :: c !in parts[k]
    ensures c !in Join(parts, sep)
  {
    if |parts| > 1 {
      JoinExcludes(parts[1..], sep, c);
      assert Join(parts, sep) == parts[0] + [sep] + Join(parts[1..], sep);
    }
  }

  /** The shape of a data line: some text without a quote, then the fields
      joined with `|` between quotes, then anything. With five fields or more
      the record takes them in order (url, name, genre, language, bitrate)
      and `extra` is the sixth field, or "0" when there are only five; with
      fewer the line is skipped. */
  lemma ParseQuotedLine(prefix: string, fields: seq<string>, suffix: string)
    requires '"' !in prefix
    requires |fields| >= 1
    requires forall k | 0 <= k < |fields| :: '|' !in fields[k] && '"' !in fields[k]
    requires Contains(prefix + ['"'] + Join(fields, '|') + ['"'] + suffix, DataMarker)
    ensures var line := prefix + ['"'] + Join(fields, '|') + ['"'] + suffix;
      && (|fields| >= 5 ==>
            ParseLine(line) == Parsed(Stream(fields[0], fields[1], fields[2], fields[3], fields[4],
                                             if |fields| > 5 then fields[5] else "0")))
      && (|fields| < 5 ==> ParseLine(line) == TooFewParts)
  {
    var joined := Join(fields, '|');
    var line := prefix + ['"'] + joined + ['"'] + suffix;
    JoinExcludes(fields, '|', '"');
    assert line == prefix + ['"'] + (joined + ['"'] + suffix);
    SplitAtFirst(prefix, '"', joined + ['"'] + suffix);
    SplitAtFirst(joined, '"', suffix);
    assert Split(line, '"')[1] == joined;
    SplitJoin(fields, '|');
  }

  /** A data line without any quote is skipped. */
  lemma UnquotedLineSkipped(line: string)
    requires '"' !in line
    ensures ParseLine(line) == if Contains(line, DataMarker) then Unquoted else NotData
  {
  }

  // The writer.

  const HeaderLines := ["SiiNunit\n", "{\n", "live_stream_def : _nameless.23f.d60f.8a20 {\n"]
  const FooterLines := ["}\n", "}\n"]

  function CountLine(n: nat): string
  {
    " stream_data: " + Decimal(n) + "\n"
  }

  function RecordLine(i: nat, s: Stream): string
  {
    "stream_data[" + Decimal(i) + "]: \"" + Join(Fields(s), '|') + "\"\n"
  }

  /** The record lines for `records`, numbered from 0. */
  function RecordLines(records: seq<Stream>): seq<string>
  {
    Numbered(records, RecordLine)
  }

  /** `line(i, records[i])` for each record in turn, `i` counting from 0. */
  function Numbered(records: seq<Stream>, line: (nat, Stream) -> string): seq<string>
  {
    if |records| == 0 then []
    else Numbered(records[..|records| - 1], line) + [line(|records| - 1, records[|records| - 1])]
  }

  /** The lines `save_file` writes. */
  function Serialize(records: seq<Stream>): seq<string>
  {
    HeaderLines + [CountLine(|records|)] + RecordLines(records) + FooterLines
  }

  /** A record the format can carry: no field holds `|`, `"` or a newline. */
  predicate Clean(s: Stream)
  {
    forall k | 0 <= k < 6 :: '|' !in Fields(s)[k] && '"' !in Fields(s)[k] && '\n' !in Fields(s)[k]
  }

  function RecordPrefix(i: nat): string
  {
    "stream_data[" + Decimal(i) + "]: "
  }

  lemma NoQuoteInPrefix(i: nat)
    ensures '"' !in RecordPrefix(i)
    ensures '\n' !in RecordPrefix(i)
    ensures '\r' !in RecordPrefix(i)
  {
    var d := Decimal(i);
    assert RecordPrefix(i) == "stream_data[" + d + "]: ";
    forall k | 0 <= k < |RecordPrefix(i)|
      ensures RecordPrefix(i)[k] != '"' && RecordPrefix(i)[k] != '\n' && RecordPrefix(i)[k] != '\r'
    {
      if 12 <= k < 12 + |d| {
        assert RecordPrefix(i)[k] == d[k - 12];
      }
    }
  }

  /** Each written record line reads back as its record. */
  lemma RecordLineParses(i: nat, s: Stream)
    requires Clean(s)
    ensures ParseLine(RecordLine(i, s)) == Parsed(s)
  {
    var line := RecordLine(i, s);
    var joined := Join(Fields(s), '|');
    assert line == RecordPrefix(i) + ['"'] + joined + ['"'] + "\n";
    assert line[..|DataMarker|] == DataMarker;
    NoQuoteInPrefix(i);
    ParseQuotedLine(RecordPrefix(i), Fields(s), "\n");
  }

  /** The count line holds no data marker, whatever the count. */
  lemma CountLineSkipped(n: nat)
    ensures ParseLine(CountLine(n)) == NotData
  {
    var d := Decimal(n);
    forall k | 0 <= k < |CountLine(n)|
      ensures CountLine(n)[k] != '['
    {
      if 14 <= k < 14 + |d| {
        assert CountLine(n)[k] == d[k - 14];
      }
    }
    NoBracketNoData(CountLine(n));
  }

  lemma RecordLinesParse(records: seq<Stream>)
    requires forall k | 0 <= k < |records| :: Clean(records[k])
    ensures ParseLines(RecordLines(records)) == records
  {
    RecordLinesEmit(records);
    GatherEach(RecordLines(records), records, Emitted);
  }

  /** Each record line yields its own record. */
  lemma RecordLinesEmit(records: seq<Stream>)
    requires forall k | 0 <= k < |records| :: Clean(records[k])
    ensures |RecordLines(records)| == |records|
    ensures forall k | 0 <= k < |records| :: Emitted(RecordLines(records)[k]) == [records[k]]
  {
    RecordLinesAt(records);
    forall k | 0 <= k < |records|
      ensures Emitted(RecordLines(records)[k]) == [records[k]]
    {
      RecordLineParses(k, records[k]);
    }
  }

  /** The header and count lines add no records. */
  lemma HeaderSkipped(n: nat)
    ensures ParseLines(HeaderLines + [CountLine(n)]) == []
  {
    var head := HeaderLines + [CountLine(n)];
    FixedLinesSkipped();
    CountLineSkipped(n);
    forall k | 0 <= k < |head|
      ensures ParseLine(head[k]) == NotData
    {
      if k < 3 {
        assert head[k] == HeaderLines[k];
      }
    }
    NoDataLines(head);
  }

  /** The two closing lines add no records. */
  lemma FooterSkipped()
    ensures ParseLines(FooterLines) == []
  {
    FixedLinesSkipped();
    NoDataLines(FooterLines);
  }

  /** No header or closing line is a data line. */
  lemma FixedLinesSkipped()
    ensures forall k | 0 <= k < |HeaderLines| :: ParseLine(HeaderLines[k]) == NotData
    ensures forall k | 0 <= k < |FooterLines| :: ParseLine(FooterLines[k]) == NotData
  {
    forall k | 0 <= k < |HeaderLines|
      ensures ParseLine(HeaderLines[k]) == NotData
    {
      if k == 2 {
        DefinitionLineSkipped();
      } else {
        ShortLineSkipped(HeaderLines[k]);
      }
    }
    forall k | 0 <= k < |FooterLines|
      ensures ParseLine(FooterLines[k]) == NotData
    {
      ShortLineSkipped(FooterLines[k]);
    }
  }

  /** A line shorter than the marker is not a data line. */
  lemma ShortLineSkipped(line: string)
    requires |line| < |DataMarker|
    ensures ParseLine(line) == NotData
  {
    forall i
      ensures !OccursAt(line, DataMarker, i)
    {
    }
    ContainsIffOccurs(line, DataMarker);
  }

  lemma DefinitionLineSkipped()
    ensures ParseLine(HeaderLines[2]) == NotData
  {
    var h := HeaderLines[2];
    forall k | 0 <= k < |h|
      ensures h[k] != '['
    {
    }
    NoBracketNoData(h);
  }

  /** Reading what the writer wrote gives back the same records, in order,
      when no field holds `|`, `"` or a newline; with no records the count
      line is the only line between header and footer and is skipped. */
  lemma RoundTrip(records: seq<Stream>)
    requires forall k | 0 <= k < |records| :: Clean(records[k])
    ensures ParseLines(Serialize(records)) == records
  {
    var head := HeaderLines + [CountLine(|records|)];
    var body := RecordLines(records);
    var front := head + body;
    assert Serialize(records) == front + FooterLines;
    ParseLinesConcat(front, FooterLines);
    FooterSkipped();
    assert ParseLines(Serialize(records)) == ParseLines(front);
    ParseLinesConcat(head, body);
    HeaderSkipped(|records|);
    RecordLinesParse(records);
  }

  /** Every line the writer produces is one line of the file. */
  lemma SerializedLinesAreLines(records: seq<Stream>)
    requires forall k | 0 <= k < |records| :: Clean(records[k])
    ensures forall k | 0 <= k < |Serialize(records)| :: IsLine(Serialize(records)[k])
  {
    FixedLinesAreLines();
    CountLineIsLine(|records|);
    forall k | 0 <= k < |records|
      ensures IsLine(RecordLine(k, records[k]))
    {
      RecordLineIsLine(k, records[k]);
    }
    EveryWrittenLine(records, IsLine);
  }

  /** A property of the header and closing lines, of the count line and of
      each record line holds of every line the writer produces. */
  lemma EveryWrittenLine(records: seq<Stream>, p: string -> bool)
    requires forall k | 0 <= k < |HeaderLines| :: p(HeaderLines[k])
    requires forall k | 0 <= k < |FooterLines| :: p(FooterLines[k])
    requires p(CountLine(|records|))
    requires forall k | 0 <= k < |records| :: p(RecordLine(k, records[k]))
    ensures forall k | 0 <= k < |Serialize(records)| :: p(Serialize(records)[k])
  {
    var out := Serialize(records);
    var n := |records|;
    SerializeLayout(records);
    forall k | 0 <= k < |out|
      ensures p(out[k])
    {
      if k < 3 {
        assert out[k] == out[..3][k];
      } else if 4 <= k < n + 4 {
        assert out[k] == RecordLine(k - 4, records[k - 4]);
      } else if n + 4 <= k {
        assert out[k] == out[n + 4..][k - n - 4];
      }
    }
  }

  /** The header and closing lines each end in their only newline. */
  lemma FixedLinesAreLines()
    ensures forall k | 0 <= k < |HeaderLines| :: IsLine(HeaderLines[k])
    ensures forall k | 0 <= k < |FooterLines| :: IsLine(FooterLines[k])
  {
    DefinitionLineIsLine();
    assert IsLine("SiiNunit\n");
    assert IsLine("{\n");
    assert IsLine("}\n");
  }

  lemma DefinitionLineIsLine()
    ensures IsLine(HeaderLines[2])
  {
    var body := "live_stream_def : _nameless.23f.d60f.8a20 {";
    forall k | 0 <= k < |body|
      ensures body[k] != '\n'
    {
    }
    var h := body + "\n";
    assert h[..|h| - 1] == body;
    assert h == HeaderLines[2];
  }

  lemma CountLineIsLine(n: nat)
    ensures IsLine(CountLine(n))
  {
    var c := CountLine(n);
    assert c[..|c| - 1] == " stream_data: " + Decimal(n);
  }

  /** The line written for a clean record ends in its only newline. */
  lemma RecordLineIsLine(i: nat, s: Stream)
    requires Clean(s)
    ensures IsLine(RecordLine(i, s))
  {
    var line := RecordLine(i, s);
    NoQuoteInPrefix(i);
    JoinExcludes(Fields(s), '|', '\n');
    assert line[..|line| - 1] == RecordPrefix(i) + ['"'] + Join(Fields(s), '|') + ['"'];
  }

  /** A record that also survives the newline translation of reading in
      text mode: besides being clean, no field holds a carriage return. */
  predicate FileClean(s: Stream)
  {
    Clean(s) && forall k | 0 <= k < 6 :: '\r' !in Fields(s)[k]
  }

  /** The same round trip through the file's text: writing the lines in
      text mode, where each `\n` becomes the platform's `newline`, reading
      the file back in text mode with `readlines` and parsing the lines
      gives the records. */
  lemma FileRoundTrip(records: seq<Stream>, newline: string)
    requires newline == "\n" || newline == "\r\n"
    requires forall k | 0 <= k < |records| :: FileClean(records[k])
    ensures ParseLines(ReadLines(UniversalNewlines(WriteNewlines(Concat(Serialize(records)), newline)))) == records
  {
    var out := Serialize(records);
    SerializedLinesAreLines(records);
    SerializedHasNoCarriageReturn(records);
    ConcatExcludes(out, '\r');
    WrittenNewlinesReadBack(Concat(out), newline);
    ReadLinesConcat(out);
    RoundTrip(records);
  }

  /** No line the writer produces for such records holds a carriage return. */
  lemma SerializedHasNoCarriageReturn(records: seq<Stream>)
    requires forall k | 0 <= k < |records| :: FileClean(records[k])
    ensures forall k | 0 <= k < |Serialize(records)| :: '\r' !in Serialize(records)[k]
  {
    FixedLinesHaveNoCarriageReturn();
    CountLineHasNoCarriageReturn(|records|);
    forall k | 0 <= k < |records|
      ensures '\r' !in RecordLine(k, records[k])
    {
      RecordLineHasNoCarriageReturn(k, records[k]);
    }
    EveryWrittenLine(records, line => '\r' !in line);
  }

  lemma FixedLinesHaveNoCarriageReturn()
    ensures forall k | 0 <= k < |HeaderLines| :: '\r' !in HeaderLines[k]
    ensures forall k | 0 <= k < |FooterLines| :: '\r' !in FooterLines[k]
  {
    var h := HeaderLines[2];
    forall k | 0 <= k < |h|
      ensures h[k] != '\r'
    {
    }
  }

  lemma CountLineHasNoCarriageReturn(n: nat)
    ensures '\r' !in CountLine(n)
  {
    var d := Decimal(n);
    forall k | 0 <= k < |CountLine(n)|
      ensures CountLine(n)[k] != '\r'
    {
      if 14 <= k < 14 + |d| {
        assert CountLine(n)[k] == d[k - 14];
      }
    }
  }

  lemma RecordLineHasNoCarriageReturn(i: nat, s: Stream)
    requires FileClean(s)
    ensures '\r' !in RecordLine(i, s)
  {
    NoQuoteInPrefix(i);
    JoinExcludes(Fields(s), '|', '\r');
    assert RecordLine(i, s) == RecordPrefix(i) + ['"'] + Join(Fields(s), '|') + ['"'] + "\n";
  }

  /** The written file in order: the three header lines, the count line
      holding the number of records, the line of record `k` numbered `k`,
      and the two closing lines. */
  lemma SerializeLayout(records: seq<Stream>)
    ensures |Serialize(records)| == |records| + 6
    ensures Serialize(records)[..3] == HeaderLines
    ensures Serialize(records)[3] == CountLine(|records|)
    ensures forall k | 0 <= k < |records| :: Serialize(records)[4 + k] == RecordLine(k, records[k])
    ensures Serialize(records)[|records| + 4..] == FooterLines
  {
    RecordLinesAt(records);
  }

  lemma RecordLinesAt(records: seq<Stream>)
    ensures |RecordLines(records)| == |records|
    ensures forall k | 0 <= k < |records| :: RecordLines(records)[k] == RecordLine(k, records[k])
  {
    NumberedAt(records, RecordLine);
  }

  lemma {:induction false} NumberedAt(records: seq<Stream>, line: (nat, Stream) -> string)
    ensures |Numbered(records, line)| == |records|
    ensures forall k | 0 <= k < |records| :: Numbered(records, line)[k] == line(k, records[k])
  {
    if |records| > 0 {
      var n := |records| - 1;
      NumberedAt(records[..n], line);
      forall k | 0 <= k < n
        ensures records[..n][k] == records[k]
      {
      }
    }
  }
}
