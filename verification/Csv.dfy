// The CSV export of audit events, and a reader for section 2 of RFC 4180 with LF as the record break.

module Csv {
  import opened Results

  // --- The writer. ---

  /** The exported columns of one event; None is null or undefined. */
  datatype AuditEvent = AuditEvent(
    id: Option<string>,
    poolId: Option<string>,
    eventType: Option<string>,
    actorAddress: Option<string>,
    targetId: Option<string>,
    timestamp: Option<string>,
    suiTxDigest: Option<string>)

  const HEADERS: seq<string> := ["id", "poolId", "eventType", "actorAddress", "targetId", "timestamp", "suiTxDigest"]

  function Columns(e: AuditEvent): (values: seq<Option<string>>)
    ensures |values| == |HEADERS|
  {
    [e.id, e.poolId, e.eventType, e.actorAddress, e.targetId, e.timestamp, e.suiTxDigest]
  }

  /** Every quote doubled. */
  function Doubled(s: string): (r: string)
  {
    if s == "" then "" else (if s[0] == '"' then ['"', '"'] else [s[0]]) + Doubled(s[1..])
  }

  predicate NeedsQuotes(s: string)
  {
    ',' in s || '"' in s
  }

  function Escape(s: string): (r: string)
  {
    if NeedsQuotes(s) then ['"'] + Doubled(s) + ['"'] else s
  }

  function Join(parts: seq<string>, separator: char): (r: string)
  {
    if parts == [] then "" else if |parts| == 1 then parts[0] else parts[0] + [separator] + Join(parts[1..], separator)
  }

  function Field(value: Option<string>): (s: string)
  {
    if value.None? then "" else value.value
  }

  function Fields(e: AuditEvent): (fields: seq<string>)
    ensures |fields| == |HEADERS|
  {
    seq(|HEADERS|, i requires 0 <= i < |HEADERS| => Field(Columns(e)[i]))
  }

  function Line(fields: seq<string>): (r: string)
  {
    Join(seq(|fields|, i requires 0 <= i < |fields| => Escape(fields[i])), ',')
  }

  function ToCsv(events: seq<AuditEvent>): (r: string)
  {
    if events == [] then ""
    else Join([Join(HEADERS, ',')] + seq(|events|, i requires 0 <= i < |events| => Line(Fields(events[i]))), '\n')
  }

  // --- The reader. ---

  datatype Parsed<T> = Parsed(value: T, rest: string)

  predicate IsText(c: char)
  {
    c != ',' && c != '\n' && c != '"'
  }

  /** A field without quotes ends before the next comma, line feed or quote. */
  function ReadPlain(s: string): (r: Parsed<string>)
    ensures |r.rest| <= |s|
  {
    if s == "" || !IsText(s[0]) then Parsed("", s)
    else var r := ReadPlain(s[1..]); Parsed([s[0]] + r.value, r.rest)
  }

  /** What follows an opening quote, up to the closing one. */
  function ReadQuoted(s: string): (r: Option<Parsed<string>>)
    ensures r.Some? ==> |r.value.rest| <= |s|
  {
    if s == "" then None
    else if s[0] == '"' then
      if |s| > 1 && s[1] == '"' then
        var r := ReadQuoted(s[2..]);
        if r.None? then None else Some(Parsed(['"'] + r.value.value, r.value.rest))
      else Some(Parsed("", s[1..]))
    else
      var r := ReadQuoted(s[1..]);
      if r.None? then None else Some(Parsed([s[0]] + r.value.value, r.value.rest))
  }

  function ReadField(s: string): (r: Option<Parsed<string>>)
    ensures r.Some? ==> |r.value.rest| <= |s|
  {
    if s != "" && s[0] == '"' then ReadQuoted(s[1..]) else Some(ReadPlain(s))
  }

  function ReadRecord(s: string): (r: Option<Parsed<seq<string>>>)
    ensures r.Some? ==> |r.value.rest| <= |s| && (r.value.rest == "" || r.value.rest[0] == '\n')
    decreases |s|
  {
    var first := ReadField(s);
    if first.None? then None
    else
      var rest := first.value.rest;
      if rest == "" || rest[0] == '\n' then Some(Parsed([first.value.value], rest))
      else if rest[0] != ',' then None
      else
        var more := ReadRecord(rest[1..]);
        if more.None? then None else Some(Parsed([first.value.value] + more.value.value, more.value.rest))
  }

  /** The last record may or may not have an ending line break. */
  function Read(s: string): (r: Option<seq<seq<string>>>)
    decreases |s|
  {
    var first := ReadRecord(s);
    if first.None? then None
    else if |first.value.rest| <= 1 then Some([first.value.value])
    else
      var more := Read(first.value.rest[1..]);
      if more.None? then None else Some([first.value.value] + more.value)
  }

  // --- What the writer produces, with what follows it. ---

  function Record(fields: seq<string>, tail: string): (r: string)
    requires fields != []
  {
    if |fields| == 1 then Escape(fields[0]) + tail else Escape(fields[0]) + ([','] + Record(fields[1..], tail))
  }

  ghost predicate NoEmptyRecord(records: seq<seq<string>>)
  {
    forall i :: 0 <= i < |records| ==> records[i] != []
  }

  function Text(records: seq<seq<string>>): (r: string)
    requires records != [] && NoEmptyRecord(records)
  {
    Record(records[0], if |records| == 1 then "" else ['\n'] + Text(records[1..]))
  }

  /** A line break is protected by quotes only in a field that is quoted for another reason. */
  predicate Safe(f: string)
  {
    '\n' in f ==> NeedsQuotes(f)
  }

  ghost predicate AllSafe(records: seq<seq<string>>)
  {
    forall i, j :: 0 <= i < |records| && 0 <= j < |records[i]| ==> Safe(records[i][j])
  }

  // --- Reading back safe fields. ---

  predicate EndsField(tail: string)
  {
    tail == "" || tail[0] == ',' || tail[0] == '\n'
  }

  lemma {:induction false} PlainReadBack(f: string, tail: string)
    requires EndsField(tail) && forall i :: 0 <= i < |f| ==> IsText(f[i])
    ensures ReadPlain(f + tail) == Parsed(f, tail)
  {
    if f == "" {
      assert f + tail == tail;
    } else {
      assert (f + tail)[1..] == f[1..] + tail && [f[0]] + f[1..] == f;
      PlainReadBack(f[1..], tail);
    }
  }

  lemma {:induction false} QuotedReadBack(f: string, tail: string)
    requires EndsField(tail)
    ensures ReadQuoted(Doubled(f) + (['"'] + tail)) == Some(Parsed(f, tail))
  {
    var s := Doubled(f) + (['"'] + tail);
    if f == "" {
      assert s == ['"'] + tail;
    } else {
      var more := Doubled(f[1..]) + (['"'] + tail);
      QuotedReadBack(f[1..], tail);
      assert [f[0]] + f[1..] == f;
      if f[0] == '"' {
        assert s == ['"', '"'] + more && s[2..] == more;
      } else {
        assert s == [f[0]] + more && s[1..] == more;
      }
    }
  }

  lemma FieldReadBack(f: string, tail: string)
    requires Safe(f) && EndsField(tail)
    ensures ReadField(Escape(f) + tail) == Some(Parsed(f, tail))
  {
    if NeedsQuotes(f) {
      assert Escape(f) + tail == ['"'] + (Doubled(f) + (['"'] + tail));
      QuotedReadBack(f, tail);
    } else {
      PlainReadBack(f, tail);
      if f == "" { assert f + tail == tail; } else { assert (f + tail)[0] == f[0]; }
    }
  }

  lemma {:induction false} RecordReadBack(fields: seq<string>, tail: string)
    requires fields != [] && (forall j :: 0 <= j < |fields| ==> Safe(fields[j])) && (tail == "" || tail[0] == '\n')
    ensures ReadRecord(Record(fields, tail)) == Some(Parsed(fields, tail))
    decreases |fields|
  {
    if |fields| == 1 {
      FieldReadBack(fields[0], tail);
      assert fields == [fields[0]];
    } else {
      var rest := [','] + Record(fields[1..], tail);
      FieldReadBack(fields[0], rest);
      RecordReadBack(fields[1..], tail);
      assert rest[1..] == Record(fields[1..], tail) && [fields[0]] + fields[1..] == fields;
    }
  }

  /** A final record that is one empty field cannot be told from an ending line break. */
  function WithoutEnd(records: seq<seq<string>>): (r: seq<seq<string>>)
  {
    if |records| > 1 && records[|records| - 1] == [""] then records[..|records| - 1] else records
  }

  lemma RecordNotEmpty(fields: seq<string>)
    requires fields != []
    ensures Record(fields, "") == "" <==> fields == [""]
  {
  }

  lemma TextNotEmpty(records: seq<seq<string>>)
    requires records != [] && NoEmptyRecord(records)
    ensures Text(records) == "" <==> records == [[""]]
  {
    if |records| == 1 { RecordNotEmpty(records[0]); } else { RecordHasTail(records[0], ['\n'] + Text(records[1..])); }
  }

  lemma {:induction false} RecordHasTail(fields: seq<string>, tail: string)
    requires fields != []
    ensures |Record(fields, tail)| >= |tail|
    decreases |fields|
  {
    if |fields| > 1 { RecordHasTail(fields[1..], tail); }
  }

  lemma EndOfMore(records: seq<seq<string>>)
    requires |records| > 1
    ensures if records[1..] == [[""]] then WithoutEnd(records) == [records[0]]
            else WithoutEnd(records) == [records[0]] + WithoutEnd(records[1..])
  {
    var n := |records| - 1;
    assert records[1..][n - 1] == records[n] && records == [records[0]] + records[1..];
    if n > 1 && records[n] == [""] { assert records[..n] == [records[0]] + records[1..][..n - 1]; }
    if n == 1 && records[n] == [""] { assert records[1..] == [[""]]; }
  }

  lemma {:induction false} TextReadBack(records: seq<seq<string>>)
    requires records != [] && NoEmptyRecord(records) && AllSafe(records)
    ensures Read(Text(records)) == Some(WithoutEnd(records))
  {
    if |records| == 1 {
      RecordReadBack(records[0], "");
      assert records == [records[0]];
    } else {
      var others := records[1..];
      var rest := ['\n'] + Text(others);
      RecordReadBack(records[0], rest);
      TextNotEmpty(others);
      TextReadBack(others);
      assert rest[1..] == Text(others);
      EndOfMore(records);
    }
  }

  // --- What the writer joins is that text. ---

  lemma {:induction false} LineIsRecord(fields: seq<string>, tail: string)
    requires fields != []
    ensures Line(fields) + tail == Record(fields, tail)
    decreases |fields|
  {
    var parts := seq(|fields|, i requires 0 <= i < |fields| => Escape(fields[i]));
    if |fields| > 1 {
      var others := fields[1..];
      assert parts[1..] == seq(|others|, i requires 0 <= i < |others| => Escape(others[i]));
      LineIsRecord(others, tail);
      assert Line(fields) + tail == Escape(fields[0]) + ([','] + (Line(others) + tail));
    }
  }

  lemma {:induction false} JoinIsText(lines: seq<string>, records: seq<seq<string>>)
    requires records != [] && NoEmptyRecord(records) && |lines| == |records|
    requires forall i :: 0 <= i < |lines| ==> lines[i] == Line(records[i])
    ensures Join(lines, '\n') == Text(records)
  {
    if |records| == 1 {
      LineIsRecord(records[0], "");
      assert Line(records[0]) + "" == Line(records[0]);
    } else {
      JoinIsText(lines[1..], records[1..]);
      LineIsRecord(records[0], ['\n'] + Text(records[1..]));
      assert lines[0] + ['\n'] + Text(records[1..]) == lines[0] + (['\n'] + Text(records[1..]));
    }
  }

  /** The header and the fields of every event. */
  function Table(events: seq<AuditEvent>): (records: seq<seq<string>>)
    ensures |records| == |events| + 1
    ensures forall i :: 0 <= i < |records| ==> |records[i]| == |HEADERS|
  {
    [HEADERS] + seq(|events|, i requires 0 <= i < |events| => Fields(events[i]))
  }

  lemma HeaderIsPlain(j: nat)
    requires j < |HEADERS|
    ensures !NeedsQuotes(HEADERS[j]) && Safe(HEADERS[j])
  {
    if j < 2 {
      assert HEADERS[j] == if j == 0 then "id" else "poolId";
    } else if j < 4 {
      assert HEADERS[j] == if j == 2 then "eventType" else "actorAddress";
    } else if j < 6 {
      assert HEADERS[j] == if j == 4 then "targetId" else "timestamp";
    }
  }

  lemma HeadersArePlain()
    ensures forall j :: 0 <= j < |HEADERS| ==> !NeedsQuotes(HEADERS[j]) && Safe(HEADERS[j])
  {
    forall j | 0 <= j < |HEADERS| ensures !NeedsQuotes(HEADERS[j]) && Safe(HEADERS[j]) { HeaderIsPlain(j); }
  }

  lemma HeaderLine()
    ensures Line(HEADERS) == Join(HEADERS, ',')
  {
    HeadersArePlain();
    var parts := seq(|HEADERS|, i requires 0 <= i < |HEADERS| => Escape(HEADERS[i]));
    assert |parts| == |HEADERS| && forall i :: 0 <= i < |HEADERS| ==> parts[i] == HEADERS[i];
    assert parts == HEADERS;
  }

  lemma CsvIsText(events: seq<AuditEvent>)
    requires events != []
    ensures ToCsv(events) == Text(Table(events))
  {
    HeaderLine();
    var lines := [Join(HEADERS, ',')] + seq(|events|, i requires 0 <= i < |events| => Line(Fields(events[i])));
    JoinIsText(lines, Table(events));
  }

  // --- Unsafe fields. ---

  /** The text between line feeds. */
  function Lines(s: string): (lines: seq<string>)
    ensures lines != []
  {
    if s == "" then [""]
    else if s[0] == '\n' then [""] + Lines(s[1..])
    else
      var lines := Lines(s[1..]);
      [[s[0]] + lines[0]] + lines[1..]
  }

  lemma {:induction false} LinesHaveNoBreak(s: string, i: nat)
    requires !NeedsQuotes(s) && i < |Lines(s)|
    ensures '\n' !in Lines(s)[i] && !NeedsQuotes(Lines(s)[i])
  {
    if s != "" && (s[0] != '\n' || i > 0) { LinesHaveNoBreak(s[1..], if s[0] == '\n' then i - 1 else i); }
  }

  /** The first parts are records of their own; the last one begins the first of the others. */
  function Attach(parts: seq<string>, others: seq<seq<string>>): (records: seq<seq<string>>)
    requires parts != [] && NoEmptyRecord(others)
    ensures records != [] && NoEmptyRecord(records)
    decreases |parts|
  {
    if |parts| > 1 then [[parts[0]]] + Attach(parts[1..], others)
    else if others == [] then [parts]
    else [parts + others[0]] + others[1..]
  }

  function Parts(f: string): (parts: seq<string>)
    ensures parts != []
  {
    if Safe(f) then [f] else Lines(f)
  }

  /** A record as the reader sees it: an unsafe field ends one record and starts another. */
  function Broken(fields: seq<string>): (records: seq<seq<string>>)
    requires fields != []
    ensures records != [] && NoEmptyRecord(records)
  {
    Attach(Parts(fields[0]), if |fields| == 1 then [] else Broken(fields[1..]))
  }

  function BrokenAll(records: seq<seq<string>>): (r: seq<seq<string>>)
    requires NoEmptyRecord(records)
    ensures NoEmptyRecord(r) && (records != [] ==> r != [])
  {
    if records == [] then [] else Broken(records[0]) + BrokenAll(records[1..])
  }

  /** What follows a record, or a field at the end of a record, when these records are still to come. */
  function Rest(more: seq<seq<string>>): (r: string)
    requires NoEmptyRecord(more)
  {
    if more == [] then "" else ['\n'] + Text(more)
  }

  function RestOfRecord(others: seq<seq<string>>, more: seq<seq<string>>): (r: string)
    requires NoEmptyRecord(others) && NoEmptyRecord(more)
  {
    if others == [] then Rest(more) else [','] + Text(others + more)
  }

  lemma TextCons(record: seq<string>, more: seq<seq<string>>)
    requires record != [] && NoEmptyRecord(more)
    ensures Text([record] + more) == Record(record, Rest(more))
  {
    assert ([record] + more)[1..] == more;
  }

  lemma LongerField(c: char, record: seq<string>, tail: string)
    requires record != [] && IsText(c) && !NeedsQuotes(record[0])
    ensures Record([[c] + record[0]] + record[1..], tail) == [c] + Record(record, tail)
  {
    var longer := [[c] + record[0]] + record[1..];
    assert longer[1..] == record[1..];
  }

  lemma {:induction false} FirstField(f: string, others: seq<seq<string>>, more: seq<seq<string>>)
    requires NoEmptyRecord(others) && NoEmptyRecord(more)
    ensures Text(Attach([f], others) + more) == Escape(f) + RestOfRecord(others, more)
  {
    if others == [] {
      TextCons([f], more);
    } else {
      assert Attach([f], others) + more == [[f] + others[0]] + (others[1..] + more);
      assert others + more == [others[0]] + (others[1..] + more);
      TextCons([f] + others[0], others[1..] + more);
      TextCons(others[0], others[1..] + more);
      assert ([f] + others[0])[1..] == others[0];
    }
  }

  lemma AttachCons(first: string, parts: seq<string>, others: seq<seq<string>>, more: seq<seq<string>>)
    requires parts != [] && NoEmptyRecord(others) && NoEmptyRecord(more)
    ensures Attach([first] + parts, others) + more == [[first]] + (Attach(parts, others) + more)
  {
    assert ([first] + parts)[1..] == parts;
  }

  /** The same records, with c in front of the first field. */
  function Longer(c: char, records: seq<seq<string>>): (r: seq<seq<string>>)
    requires records != [] && records[0] != []
  {
    [[[c] + records[0][0]] + records[0][1..]] + records[1..]
  }

  lemma LongerText(c: char, records: seq<seq<string>>)
    requires records != [] && NoEmptyRecord(records) && IsText(c) && !NeedsQuotes(records[0][0])
    ensures NoEmptyRecord(Longer(c, records)) && Text(Longer(c, records)) == [c] + Text(records)
  {
    assert records == [records[0]] + records[1..];
    TextCons(records[0], records[1..]);
    TextCons([[c] + records[0][0]] + records[0][1..], records[1..]);
    LongerField(c, records[0], Rest(records[1..]));
  }

  lemma LongerConcat(c: char, records: seq<seq<string>>, more: seq<seq<string>>)
    requires records != [] && records[0] != []
    ensures Longer(c, records) + more == Longer(c, records + more)
  {
    assert (records + more)[1..] == records[1..] + more;
  }

  lemma {:induction false} LongerAttach(c: char, lines: seq<string>, others: seq<seq<string>>)
    requires lines != [] && NoEmptyRecord(others)
    ensures Attach([[c] + lines[0]] + lines[1..], others) == Longer(c, Attach(lines, others))
    ensures Attach(lines, others)[0][0] == lines[0]
  {
    var longer := [[c] + lines[0]] + lines[1..];
    assert longer[1..] == lines[1..];
    if |lines| > 1 {
      assert Attach(lines, others)[1..] == Attach(lines[1..], others);
      assert Attach(lines, others)[0] == [lines[0]] && [[c] + lines[0]] + [lines[0]][1..] == [[c] + lines[0]];
    } else if others != [] {
      assert (lines + others[0])[1..] == others[0] && longer + others[0] == [[c] + lines[0]] + others[0];
    }
  }

  lemma AfterBreak(lines: seq<string>, others: seq<seq<string>>, more: seq<seq<string>>)
    requires lines != [] && NoEmptyRecord(others) && NoEmptyRecord(more)
    ensures Text(Attach([""] + lines, others) + more) == ['\n'] + Text(Attach(lines, others) + more)
  {
    AttachCons("", lines, others, more);
    TextCons([""], Attach(lines, others) + more);
  }

  lemma AfterChar(c: char, lines: seq<string>, others: seq<seq<string>>, more: seq<seq<string>>)
    requires lines != [] && IsText(c) && !NeedsQuotes(lines[0]) && NoEmptyRecord(others) && NoEmptyRecord(more)
    ensures Text(Attach([[c] + lines[0]] + lines[1..], others) + more) == [c] + Text(Attach(lines, others) + more)
  {
    LongerAttach(c, lines, others);
    LongerConcat(c, Attach(lines, others), more);
    LongerText(c, Attach(lines, others) + more);
  }

  lemma HeadFirst(s: string, tail: string)
    requires s != ""
    ensures s + tail == [s[0]] + (s[1..] + tail)
  {
  }

  /** Breaking a field at its line feeds does not change the text. */
  lemma {:induction false} LinesText(s: string, others: seq<seq<string>>, more: seq<seq<string>>)
    requires !NeedsQuotes(s) && NoEmptyRecord(others) && NoEmptyRecord(more)
    ensures Text(Attach(Lines(s), others) + more) == s + RestOfRecord(others, more)
  {
    if s == "" {
      FirstField("", others, more);
    } else {
      LinesText(s[1..], others, more);
      HeadFirst(s, RestOfRecord(others, more));
      if s[0] == '\n' {
        AfterBreak(Lines(s[1..]), others, more);
      } else {
        LinesHaveNoBreak(s[1..], 0);
        AfterChar(s[0], Lines(s[1..]), others, more);
      }
    }
  }

  lemma {:induction false} BrokenText(fields: seq<string>, more: seq<seq<string>>)
    requires fields != [] && NoEmptyRecord(more)
    ensures Text(Broken(fields) + more) == Record(fields, Rest(more))
    decreases |fields|
  {
    var others := if |fields| == 1 then [] else Broken(fields[1..]);
    if |fields| > 1 { BrokenText(fields[1..], more); }
    if Safe(fields[0]) { FirstField(fields[0], others, more); } else { LinesText(fields[0], others, more); }
  }

  lemma {:induction false} BrokenAllText(records: seq<seq<string>>)
    requires records != [] && NoEmptyRecord(records)
    ensures Text(BrokenAll(records)) == Text(records)
  {
    var others := BrokenAll(records[1..]);
    if |records| > 1 { BrokenAllText(records[1..]); }
    BrokenText(records[0], others);
  }

  // --- Breaking leaves safe fields only. ---

  lemma AttachIsSafe(parts: seq<string>, others: seq<seq<string>>)
    requires parts != [] && NoEmptyRecord(others) && AllSafe(others) && forall i :: 0 <= i < |parts| ==> Safe(parts[i])
    ensures AllSafe(Attach(parts, others))
    decreases |parts|
  {
    if |parts| > 1 { AttachIsSafe(parts[1..], others); }
  }

  lemma {:induction false} BrokenIsSafe(fields: seq<string>)
    requires fields != []
    ensures AllSafe(Broken(fields))
    decreases |fields|
  {
    if |fields| > 1 { BrokenIsSafe(fields[1..]); }
    var f := fields[0];
    forall i | 0 <= i < |Parts(f)| ensures Safe(Parts(f)[i])
    {
      if !Safe(f) { LinesHaveNoBreak(f, i); }
    }
    AttachIsSafe(Parts(f), if |fields| == 1 then [] else Broken(fields[1..]));
  }

  lemma {:induction false} BrokenAllIsSafe(records: seq<seq<string>>)
    requires NoEmptyRecord(records)
    ensures AllSafe(BrokenAll(records))
  {
    if records != [] {
      BrokenIsSafe(records[0]);
      BrokenAllIsSafe(records[1..]);
    }
  }

  lemma {:induction false} SafeStaysWhole(fields: seq<string>)
    requires fields != [] && forall j :: 0 <= j < |fields| ==> Safe(fields[j])
    ensures Broken(fields) == [fields]
    decreases |fields|
  {
    if |fields| > 1 {
      SafeStaysWhole(fields[1..]);
      assert [fields[0]] + fields[1..] == fields;
      assert Attach([fields[0]], [fields[1..]]) == [[fields[0]] + fields[1..]];
    } else {
      assert fields == [fields[0]];
    }
  }

  lemma {:induction false} AllSafeStaysWhole(records: seq<seq<string>>)
    requires NoEmptyRecord(records) && AllSafe(records)
    ensures BrokenAll(records) == records
  {
    if records != [] {
      SafeStaysWhole(records[0]);
      AllSafeStaysWhole(records[1..]);
      assert [records[0]] + records[1..] == records;
    }
  }

  // --- What an export says. ---

  /** The value as it is shown; null and undefined as nothing. */
  predicate Shows(cell: string, value: Option<string>)
  {
    cell == match value { case None => "" case Some(v) => v }
  }

  /** The cell of this record under the header with this name shows the value. */
  ghost predicate Under(header: seq<string>, record: seq<string>, name: string, value: Option<string>)
  {
    exists j :: 0 <= j < |header| && j < |record| && header[j] == name && Shows(record[j], value)
  }

  ghost predicate RecordSays(header: seq<string>, record: seq<string>, e: AuditEvent)
  {
    && |record| == |header|
    && Under(header, record, "id", e.id) && Under(header, record, "poolId", e.poolId)
    && Under(header, record, "eventType", e.eventType) && Under(header, record, "actorAddress", e.actorAddress)
    && Under(header, record, "targetId", e.targetId) && Under(header, record, "timestamp", e.timestamp)
    && Under(header, record, "suiTxDigest", e.suiTxDigest)
  }

  /** The seven names, and under them the attributes of every event. */
  ghost predicate IsExportOf(t: seq<seq<string>>, events: seq<AuditEvent>)
  {
    && |t| == |events| + 1
    && t[0] == ["id", "poolId", "eventType", "actorAddress", "targetId", "timestamp", "suiTxDigest"]
    && forall i :: 0 <= i < |events| ==> RecordSays(t[0], t[i + 1], events[i])
  }

  lemma NamesDiffer()
    ensures forall i, j :: 0 <= i < |HEADERS| && 0 <= j < |HEADERS| && HEADERS[i] == HEADERS[j] ==> i == j
  {
    assert |HEADERS| == 7 && |HEADERS[0]| == 2 && |HEADERS[1]| == 6 && |HEADERS[2]| == 9 && |HEADERS[3]| == 12;
    assert |HEADERS[4]| == 8 && |HEADERS[5]| == 9 && |HEADERS[6]| == 11;
    assert HEADERS[2][0] == 'e' && HEADERS[5][0] == 't';
  }

  lemma Placed(record: seq<string>, j: nat, name: string, value: Option<string>)
    requires |record| == |HEADERS| && j < |HEADERS| && HEADERS[j] == name
    ensures Under(HEADERS, record, name, value) <==> Shows(record[j], value)
  {
    NamesDiffer();
  }

  lemma FieldsPlaced(r: seq<string>, e: AuditEvent)
    requires |r| == |HEADERS|
    ensures RecordSays(HEADERS, r, e)
      <==> Shows(r[0], e.id) && Shows(r[1], e.poolId) && Shows(r[2], e.eventType) && Shows(r[3], e.actorAddress)
           && Shows(r[4], e.targetId) && Shows(r[5], e.timestamp) && Shows(r[6], e.suiTxDigest)
  {
    Placed(r, 0, "id", e.id);
    Placed(r, 1, "poolId", e.poolId);
    Placed(r, 2, "eventType", e.eventType);
    Placed(r, 3, "actorAddress", e.actorAddress);
    Placed(r, 4, "targetId", e.targetId);
    Placed(r, 5, "timestamp", e.timestamp);
    Placed(r, 6, "suiTxDigest", e.suiTxDigest);
  }

  lemma FieldsAre(e: AuditEvent)
    ensures Fields(e) == [Field(e.id), Field(e.poolId), Field(e.eventType), Field(e.actorAddress), Field(e.targetId),
                          Field(e.timestamp), Field(e.suiTxDigest)]
  {
  }

  lemma OnlyFields(header: seq<string>, record: seq<string>, e: AuditEvent)
    requires header == HEADERS && RecordSays(header, record, e)
    ensures record == Fields(e)
  {
    FieldsPlaced(record, e);
    FieldsAre(e);
  }

  /** The table that the writer writes is that. */
  lemma TableIsExport(events: seq<AuditEvent>)
    ensures IsExportOf(Table(events), events)
  {
    forall i | 0 <= i < |events| ensures RecordSays(Table(events)[0], Table(events)[i + 1], events[i])
    {
      FieldsPlaced(Fields(events[i]), events[i]);
      FieldsAre(events[i]);
    }
  }

  predicate SafeValue(value: Option<string>)
  {
    value.Some? ==> Safe(value.value)
  }

  /** No attribute has a line feed without a comma or a quote. */
  predicate SafeEvent(e: AuditEvent)
  {
    && SafeValue(e.id) && SafeValue(e.poolId) && SafeValue(e.eventType) && SafeValue(e.actorAddress)
    && SafeValue(e.targetId) && SafeValue(e.timestamp) && SafeValue(e.suiTxDigest)
  }

  predicate SafeRecord(fields: seq<string>)
  {
    forall j :: 0 <= j < |fields| ==> Safe(fields[j])
  }

  lemma SafeFields(e: AuditEvent)
    ensures SafeEvent(e) <==> SafeRecord(Fields(e))
  {
    FieldsAre(e);
    var fs := Fields(e);
    assert |HEADERS| == 7 && Safe("");
    assert SafeRecord(fs)
      <==> Safe(fs[0]) && Safe(fs[1]) && Safe(fs[2]) && Safe(fs[3]) && Safe(fs[4]) && Safe(fs[5]) && Safe(fs[6]);
  }

  /** Only no events at all give no text at all. */
  lemma EmptyIff(events: seq<AuditEvent>)
    ensures ToCsv(events) == "" <==> events == []
  {
    if events != [] { CsvIsText(events); }
  }

  // --- The round trip. ---

  /** Whatever the fields contain, this is what the reader makes of the text. */
  lemma ReadsBroken(records: seq<seq<string>>)
    requires records != [] && NoEmptyRecord(records)
    ensures Read(Text(records)) == Some(WithoutEnd(BrokenAll(records)))
  {
    BrokenAllText(records);
    BrokenAllIsSafe(records);
    TextReadBack(BrokenAll(records));
  }

  /** Reading an export gives back all names and values, null as the empty field, iff every event is safe. */
  lemma RoundTripIff(events: seq<AuditEvent>)
    requires events != []
    ensures Read(ToCsv(events)).Some? && IsExportOf(Read(ToCsv(events)).value, events)
      <==> forall i :: 0 <= i < |events| ==> SafeEvent(events[i])
  {
    var r := Read(ToCsv(events));
    CsvIsText(events);
    TableSafeIff(events);
    ReadsItselfIff(Table(events));
    if r.Some? { OnlyTable(r.value, events); }
  }

  lemma OnlyTable(t: seq<seq<string>>, events: seq<AuditEvent>)
    ensures IsExportOf(t, events) <==> t == Table(events)
  {
    TableIsExport(events);
    if IsExportOf(t, events) {
      forall i | 0 <= i < |events| ensures t[i + 1] == Fields(events[i]) { OnlyFields(t[0], t[i + 1], events[i]); }
      SameTable(t, events);
    }
  }

  lemma SameTable(t: seq<seq<string>>, events: seq<AuditEvent>)
    requires |t| == |events| + 1 && t[0] == HEADERS
    requires forall i :: 0 <= i < |events| ==> t[i + 1] == Fields(events[i])
    ensures t == Table(events)
  {
    forall i | 0 <= i < |t| ensures t[i] == Table(events)[i]
    {
      if i > 0 { assert t[i - 1 + 1] == Fields(events[i - 1]); }
    }
  }

  lemma ReadsItselfIff(records: seq<seq<string>>)
    requires records != [] && NoEmptyRecord(records) && records[|records| - 1] != [""]
    ensures Read(Text(records)) == Some(records) <==> AllSafe(records)
  {
    ReadsBroken(records);
    BrokenAllIsSafe(records);
    SafeWithoutEnd(BrokenAll(records));
    if AllSafe(records) { AllSafeStaysWhole(records); }
  }

  lemma SafeWithoutEnd(records: seq<seq<string>>)
    requires AllSafe(records)
    ensures AllSafe(WithoutEnd(records))
  {
  }

  lemma TableSafeIff(events: seq<AuditEvent>)
    ensures AllSafe(Table(events)) <==> forall i :: 0 <= i < |events| ==> SafeEvent(events[i])
  {
    var t := Table(events);
    HeadersArePlain();
    forall i | 0 <= i < |events|
      ensures t[i + 1] == Fields(events[i]) && (SafeEvent(events[i]) <==> SafeRecord(t[i + 1]))
    {
      SafeFields(events[i]);
    }
    assert SafeRecord(t[0]) && (AllSafe(t) <==> forall i :: 0 <= i < |t| ==> SafeRecord(t[i]));
  }

  /** One line feed, in a field without a comma or a quote, is enough to break an export. */
  lemma LineFeedBreaks(e: AuditEvent)
    requires e.targetId == Some("a\nb")
    ensures Read(ToCsv([e])).None? || !IsExportOf(Read(ToCsv([e])).value, [e])
  {
    assert "a\nb"[1] == '\n' && !Safe("a\nb");
    assert !SafeEvent([e][0]);
    RoundTripIff([e]);
  }
}
