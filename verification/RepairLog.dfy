/**
 The backup file as characters: how a line cut short at any character reads
 back, and that the file of RepairModel says all there is to say about it.
 */
module RepairLog {
  import opened RepairModel

  /** What json.loads and the format check make of one line. */
  datatype Parse = NotJson | Unrecognised | Parsed(record: Record)

  datatype Read = Records(records: seq<Record>) | BadLine(number: nat)

  /** How records are written to and read from a line. */
  datatype Codec = Codec(encode: Record -> string, decode: string -> Parse)

  /** Each of these records is one non-empty line, reads back as itself, and no proper
      part of it from the front is JSON. */
  ghost predicate LineCodec(c: Codec, all: iset<Record>) {
    forall r | r in all :: OneLine(c, r)
  }

  ghost predicate OneLine(c: Codec, r: Record) {
    && c.decode(c.encode(r)) == Parsed(r)
    && '\n' !in c.encode(r) && c.encode(r) != ""
    && forall n: nat | n < |c.encode(r)| :: CutLine(c, c.encode(r), n)
  }

  ghost predicate CutLine(c: Codec, line: string, n: nat)
    requires n < |line|
  {
    c.decode(line[..n]) == NotJson
  }

  /** str.split("\n") */
  function Split(raw: string): (lines: seq<string>)
    ensures |lines| >= 1
  {
    if raw == "" then [""]
    else
      var rest := Split(raw[1..]);
      if raw[0] == '\n' then [""] + rest else [[raw[0]] + rest[0]] + rest[1..]
  }

  predicate EndsWithNewline(raw: string) {
    raw != "" && raw[|raw| - 1] == '\n'
  }

  /** The records of lines[from..]; only a last line without its newline may be
      something other than JSON. */
  function ParseFrom(c: Codec, lines: seq<string>, from: nat, ended: bool): Read
    requires from <= |lines|
    decreases |lines| - from
  {
    if from == |lines| then Records([])
    else
      var rest := ParseFrom(c, lines, from + 1, ended);
      if lines[from] == "" then rest
      else match c.decode(lines[from])
        case NotJson => if from + 1 == |lines| && !ended then rest else BadLine(from + 1)
        case Unrecognised => BadLine(from + 1)
        case Parsed(r) => Then([r], rest)
  }

  function ReadRaw(c: Codec, raw: string): Read {
    ParseFrom(c, Split(raw), 0, EndsWithNewline(raw))
  }

  /** read_backup: the first bad line refuses the file, whatever follows it. */
  method ReadBackupFile(c: Codec, raw: string) returns (result: Read)
    ensures result == ReadRaw(c, raw)
  {
    var lines, ended := Split(raw), EndsWithNewline(raw);
    var records: seq<Record> := [];
    var n := 0;
    while n < |lines|
      invariant 0 <= n <= |lines|
      invariant ReadRaw(c, raw) == Then(records, ParseFrom(c, lines, n, ended))
    {
      if lines[n] != "" {
        match c.decode(lines[n])
        case NotJson =>
          if n + 1 != |lines| || ended {
            return BadLine(n + 1);
          }
        case Unrecognised => return BadLine(n + 1);
        case Parsed(r) =>
          ThenOne(records, r, ParseFrom(c, lines, n + 1, ended));
          records := records + [r];
      }
      n := n + 1;
    }
    result := Records(records);
  }

  function Then(records: seq<Record>, rest: Read): Read {
    if rest.BadLine? then rest else Records(records + rest.records)
  }

  lemma ThenOne(records: seq<Record>, r: Record, rest: Read)
    ensures Then(records + [r], rest) == Then(records, Then([r], rest))
  {
    if rest.Records? {
      assert records + [r] + rest.records == records + ([r] + rest.records);
    }
  }

  /** A line that refuses the file: it holds JSON that is no record, or no JSON at all
      and is not the end of a file that lacks its last newline. */
  ghost predicate Refuses(c: Codec, lines: seq<string>, k: nat, ended: bool)
    requires k < |lines|
  {
    && lines[k] != ""
    && (c.decode(lines[k]) == Unrecognised || (c.decode(lines[k]) == NotJson && (k + 1 < |lines| || ended)))
  }

  ghost predicate Holds(c: Codec, lines: seq<string>, k: nat, r: Record)
    requires k < |lines|
  {
    lines[k] != "" && c.decode(lines[k]) == Parsed(r)
  }

  ghost predicate NoneRefuses(c: Codec, lines: seq<string>, from: nat, to: nat, ended: bool)
    requires to <= |lines|
  {
    forall k: nat | from <= k < to :: !Refuses(c, lines, k, ended)
  }

  ghost predicate SomeHolds(c: Codec, lines: seq<string>, from: nat, r: Record) {
    exists k: nat :: from <= k < |lines| && Holds(c, lines, k, r)
  }

  /** What reading these lines from here on must come to. */
  ghost predicate ReadsAs(c: Codec, lines: seq<string>, from: nat, ended: bool, read: Read) {
    match read
    case Records(records) =>
      NoneRefuses(c, lines, from, |lines|, ended) && forall r :: r in records <==> SomeHolds(c, lines, from, r)
    case BadLine(n) =>
      from < n <= |lines| && Refuses(c, lines, n - 1, ended) && NoneRefuses(c, lines, from, n - 1, ended)
  }

  lemma {:induction false} ParseFromMeans(c: Codec, lines: seq<string>, from: nat, ended: bool)
    requires from <= |lines|
    ensures ReadsAs(c, lines, from, ended, ParseFrom(c, lines, from, ended))
    decreases |lines| - from
  {
    if from < |lines| {
      ParseFromMeans(c, lines, from + 1, ended);
      var read, rest := ParseFrom(c, lines, from, ended), ParseFrom(c, lines, from + 1, ended);
      if read.Records? {
        forall r ensures r in read.records <==> SomeHolds(c, lines, from, r) {
          HoldsFrom(c, lines, from, r);
        }
      }
    }
  }

  lemma HoldsFrom(c: Codec, lines: seq<string>, from: nat, r: Record)
    requires from < |lines|
    ensures SomeHolds(c, lines, from, r) <==> Holds(c, lines, from, r) || SomeHolds(c, lines, from + 1, r)
  {
    hide Holds;
  }

  /** A file is refused at its first such line, and otherwise every line's record is
      read and nothing else. */
  lemma RefusedAtTheFirstBadLine(c: Codec, raw: string)
    ensures ReadsAs(c, Split(raw), 0, EndsWithNewline(raw), ReadRaw(c, raw))
  {
    ParseFromMeans(c, Split(raw), 0, EndsWithNewline(raw));
  }

  /** The offset just past the last newline, 0 if there is none. */
  function LastNewlineEnd(raw: string): (end: nat)
    ensures end <= |raw|
  {
    if raw == "" then 0
    else if raw[|raw| - 1] == '\n' then |raw|
    else LastNewlineEnd(raw[..|raw| - 1])
  }

  /** What opening the file for appending leaves in it. */
  function OpenRaw(raw: string): string {
    if raw != "" && !EndsWithNewline(raw) then raw[..LastNewlineEnd(raw)] else raw
  }

  function Lines(c: Codec, records: seq<Record>): string {
    if records == [] then "" else c.encode(records[0]) + "\n" + Lines(c, records[1..])
  }

  /** The characters a file may hold. */
  ghost predicate Represents(c: Codec, all: iset<Record>, raw: string, f: File) {
    && (forall r | r in f.lines :: r in all)
    && exists end: string :: raw == Lines(c, f.lines) + end && TailReads(c, all, end, f.tail)
  }

  ghost predicate TailReads(c: Codec, all: iset<Record>, end: string, tail: Tail) {
    match tail
    case NoTail => end == ""
    case Torn => end != "" && exists r | r in all :: CutFrom(c, end, r)
    case Whole(r) => r in all && end == c.encode(r)
  }

  ghost predicate CutFrom(c: Codec, end: string, r: Record) {
    end < c.encode(r)
  }

  // ---------------------------------------------------------------- splitting

  lemma {:induction false} SplitLine(line: string, rest: string)
    requires '\n' !in line
    ensures Split(line + "\n" + rest) == [line] + Split(rest)
  {
    var raw := line + "\n" + rest;
    if line == "" {
      assert raw == "\n" + rest;
      assert raw[1..] == rest;
    } else {
      assert raw[1..] == line[1..] + "\n" + rest;
      SplitLine(line[1..], rest);
      assert [line[0]] + line[1..] == line;
    }
  }

  lemma {:induction false} SplitWhole(line: string)
    requires '\n' !in line
    ensures Split(line) == [line]
  {
    if line != "" {
      SplitWhole(line[1..]);
      assert [line[0]] + line[1..] == line;
    }
  }

  lemma {:induction false} ParseShift(c: Codec, line: string, lines: seq<string>, from: nat, ended: bool)
    requires from <= |lines|
    ensures ParseFrom(c, [line] + lines, from + 1, ended) ==
            var r := ParseFrom(c, lines, from, ended);
            if r.BadLine? then BadLine(r.number + 1) else r
    decreases |lines| - from
  {
    if from < |lines| {
      ParseShift(c, line, lines, from + 1, ended);
    }
  }

  // ---------------------------------------------------------------- reading back

  /** What the last, unfinished line reads as. */
  lemma TailLine(c: Codec, all: iset<Record>, end: string, tail: Tail)
    requires LineCodec(c, all) && TailReads(c, all, end, tail)
    ensures '\n' !in end
    ensures end == "" <==> tail.NoTail?
    ensures tail.Torn? ==> c.decode(end) == NotJson
    ensures tail.Whole? ==> c.decode(end) == Parsed(tail.record)
  {
    match tail
    case NoTail =>
    case Whole(r) => assert OneLine(c, r);
    case Torn =>
      var r :| r in all && CutFrom(c, end, r);
      assert OneLine(c, r);
      assert CutLine(c, c.encode(r), |end|);
      assert end == c.encode(r)[..|end|];
  }

  lemma {:induction false} LinesEnd(c: Codec, records: seq<Record>)
    ensures Lines(c, records) == "" || EndsWithNewline(Lines(c, records))
  {
    if records != [] {
      LinesEnd(c, records[1..]);
    }
  }

  lemma ReadsTail(c: Codec, all: iset<Record>, end: string, tail: Tail)
    requires LineCodec(c, all) && TailReads(c, all, end, tail)
    ensures ParseFrom(c, Split(end), 0, end == "") == Records(ReadBackup(File([], tail)))
  {
    TailLine(c, all, end, tail);
    SplitWhole(end);
    assert ParseFrom(c, [end], 1, end == "") == Records([]);
  }

  lemma ReadsLine(c: Codec, all: iset<Record>, r: Record, rest: string, ended: bool)
    requires LineCodec(c, all) && r in all
    ensures var more := ParseFrom(c, Split(rest), 0, ended);
            ParseFrom(c, Split(c.encode(r) + "\n" + rest), 0, ended) ==
            if more.BadLine? then BadLine(more.number + 1) else Records([r] + more.records)
  {
    assert OneLine(c, r);
    SplitLine(c.encode(r), rest);
    ParseShift(c, c.encode(r), Split(rest), 0, ended);
  }

  lemma {:induction false} ReadsBack(c: Codec, all: iset<Record>, records: seq<Record>, end: string, tail: Tail)
    requires LineCodec(c, all) && TailReads(c, all, end, tail) && forall r | r in records :: r in all
    ensures ParseFrom(c, Split(Lines(c, records) + end), 0, end == "") == Records(ReadBackup(File(records, tail)))
  {
    if records == [] {
      assert Lines(c, records) + end == end;
      ReadsTail(c, all, end, tail);
    } else {
      var rest := Lines(c, records[1..]) + end;
      assert Lines(c, records) + end == c.encode(records[0]) + "\n" + rest;
      ReadsLine(c, all, records[0], rest, end == "");
      ReadsBack(c, all, records[1..], end, tail);
      assert records == [records[0]] + records[1..];
    }
  }

  /** read_backup returns exactly the abstract file's records, and opening the
      file leaves exactly its complete lines: for every file a crash can leave. */
  lemma FileReadsAndOpens(c: Codec, all: iset<Record>, raw: string, f: File)
    requires LineCodec(c, all) && Represents(c, all, raw, f)
    ensures ReadRaw(c, raw) == Records(ReadBackup(f))
    ensures OpenRaw(raw) == Lines(c, f.lines) && Represents(c, all, OpenRaw(raw), OpenBackup(f))
  {
    var end: string :| raw == Lines(c, f.lines) + end && TailReads(c, all, end, f.tail);
    TailLine(c, all, end, f.tail);
    ReadsBack(c, all, f.lines, end, f.tail);
    LinesEnd(c, f.lines);
    EndedDoesNotMatter(c, Lines(c, f.lines), end);
    CutsTail(Lines(c, f.lines), end);
    assert Lines(c, f.lines) == Lines(c, f.lines) + "";
    assert TailReads(c, all, "", NoTail);
  }

  /** The file ends in a newline exactly when no line is unfinished; the empty
      file reads the same either way. */
  lemma EndedDoesNotMatter(c: Codec, front: string, end: string)
    requires front == "" || EndsWithNewline(front)
    requires '\n' !in end
    ensures ParseFrom(c, Split(front + end), 0, EndsWithNewline(front + end)) ==
            ParseFrom(c, Split(front + end), 0, end == "")
  {
    if front + end == "" {
      assert ParseFrom(c, [""], 1, true) == Records([]) == ParseFrom(c, [""], 1, false);
    } else if end == "" {
      assert front + end == front;
    }
  }

  lemma {:induction false} CutsTail(front: string, end: string)
    requires front == "" || EndsWithNewline(front)
    requires '\n' !in end
    ensures LastNewlineEnd(front + end) == |front|
    ensures OpenRaw(front + end) == front
  {
    var raw := front + end;
    if end == "" {
      assert raw == front;
    } else {
      assert raw[..|raw| - 1] == front + end[..|end| - 1];
      CutsTail(front, end[..|end| - 1]);
      assert raw[..|front|] == front;
    }
  }

  lemma {:induction false} LinesAppend(c: Codec, records: seq<Record>, r: Record)
    ensures Lines(c, records + [r]) == Lines(c, records) + (c.encode(r) + "\n")
  {
    if records == [] {
      assert records + [r] == [r];
      assert [r][1..] == [];
    } else {
      assert (records + [r])[1..] == records[1..] + [r];
      LinesAppend(c, records[1..], r);
    }
  }

  /** Cutting an append after any number of characters leaves the file as it was,
      torn, whole but for the newline, or one record longer: nothing else. */
  lemma AppendCutAnywhere(c: Codec, all: iset<Record>, lines: seq<Record>, r: Record, written: nat)
    requires LineCodec(c, all) && r in all && (forall l | l in lines :: l in all) && written <= |c.encode(r)| + 1
    ensures var raw := Lines(c, lines) + (c.encode(r) + "\n")[..written];
            if written == |c.encode(r)| + 1 then Represents(c, all, raw, File(lines + [r], NoTail))
            else Represents(c, all, raw, File(lines, if written == 0 then NoTail
                                                else if written == |c.encode(r)| then Whole(r)
                                                else Torn))
  {
    var line := c.encode(r);
    var end := (line + "\n")[..written];
    if written == |line| + 1 {
      LinesAppend(c, lines, r);
      assert end == line + "\n";
      assert Lines(c, lines + [r]) == Lines(c, lines + [r]) + "";
      assert TailReads(c, all, "", NoTail);
    } else {
      assert end == line[..written];
      if 0 < written < |line| {
        assert CutFrom(c, end, r);
        assert TailReads(c, all, end, Torn);
      } else if written == |line| {
        assert end == line;
      }
    }
  }

  // ---------------------------------------------------------------- there are such codecs

  /** i ones and a zero. */
  function Numeral(i: nat): (line: string)
    ensures |line| == i + 1 && line[i] == '0' && forall k | 0 <= k < i :: line[k] == '1'
  {
    if i == 0 then "0" else "1" + Numeral(i - 1)
  }

  function IndexIn(order: seq<Record>, r: Record): (i: nat)
    ensures i <= |order| && (r in order ==> i < |order| && order[i] == r)
  {
    if order == [] || order[0] == r then 0 else 1 + IndexIn(order[1..], r)
  }

  /** Writes a record as its place in this order. */
  function ByPlace(order: seq<Record>): Codec {
    Codec(r => Numeral(IndexIn(order, r)),
          line => if line != "" && |line| <= |order| && line == Numeral(|line| - 1) then Parsed(order[|line| - 1]) else NotJson)
  }

  /** Whatever records a file is to hold, they can be written in such lines. */
  lemma CodecExists(order: seq<Record>)
    ensures LineCodec(ByPlace(order), iset r | r in order)
  {
    var c := ByPlace(order);
    forall r | r in order ensures OneLine(c, r) {
      var line := c.encode(r);
      forall n: nat | n < |line| ensures CutLine(c, line, n) {
        assert n > 0 ==> line[..n][n - 1] == '1';
      }
    }
  }
}
