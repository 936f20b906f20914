/** The contribution report: a comma-separated writer, and the reader of section 2 of
    RFC 4180 (with a bare line feed as the line break) that gives back what was written. */
module Csv {
  import opened Common

  type Row = seq<string>

  // ---- Writer -------------------------------------------------------------------------

  /** Doubles every quotation mark. */
  function Escape(cell: string): string {
    if cell == [] then []
    else Doubled(cell[0]) + Escape(cell[1..])
  }

  function Doubled(ch: char): string {
    if ch == '"' then ['"', '"'] else [ch]
  }

  function Quote(cell: string): string {
    ['"'] + Escape(cell) + ['"']
  }

  function WriteRow(row: Row): string {
    if row == [] then []
    else if |row| == 1 then Quote(row[0])
    else Quote(row[0]) + [','] + WriteRow(row[1..])
  }

  function Write(rows: seq<Row>): string {
    if rows == [] then []
    else if |rows| == 1 then WriteRow(rows[0])
    else WriteRow(rows[0]) + ['\n'] + Write(rows[1..])
  }

  // ---- Reader -------------------------------------------------------------------------

  datatype Parsed<+T> = Parsed(value: T, rest: string)

  /** The rest of a quoted field, behind its opening quotation mark. */
  function ReadQuoted(text: string): (r: Option<Parsed<string>>)
    ensures r.Some? ==> |r.value.rest| < |text|
  {
    if text == [] then None
    else if text[0] != '"' then
      match ReadQuoted(text[1..])
      case None => None
      case Some(p) => Some(Parsed([text[0]] + p.value, p.rest))
    else if |text| > 1 && text[1] == '"' then
      match ReadQuoted(text[2..])
      case None => None
      case Some(p) => Some(Parsed(['"'] + p.value, p.rest))
    else Some(Parsed([], text[1..]))
  }

  /** An unquoted field contains no quotation mark, comma or line break. */
  function ReadPlain(text: string): (r: Option<Parsed<string>>)
    ensures r.Some? ==> |r.value.rest| <= |text|
  {
    if text == [] || text[0] == ',' || text[0] == '\n' then Some(Parsed([], text))
    else if text[0] == '"' || text[0] == '\r' then None
    else
      match ReadPlain(text[1..])
      case None => None
      case Some(p) => Some(Parsed([text[0]] + p.value, p.rest))
  }

  function ReadField(text: string): (r: Option<Parsed<string>>)
    ensures r.Some? ==> |r.value.rest| <= |text|
  {
    if text != [] && text[0] == '"' then ReadQuoted(text[1..]) else ReadPlain(text)
  }

  /** One record: fields with commas between them, up to a line break or the end. */
  function ReadRow(text: string): (r: Option<Parsed<Row>>)
    ensures r.Some? ==> r.value.value != [] && |r.value.rest| <= |text|
    ensures r.Some? && r.value.rest != [] ==> r.value.rest[0] == '\n'
    decreases |text|
  {
    match ReadField(text)
    case None => None
    case Some(field) =>
      if field.rest == [] || field.rest[0] == '\n' then Some(Parsed([field.value], field.rest))
      else if field.rest[0] == ',' then
        match ReadRow(field.rest[1..])
        case None => None
        case Some(row) => Some(Parsed([field.value] + row.value, row.rest))
      else None
  }

  /** Records with line breaks between them; the last one may have one behind it. */
  function Read(text: string): (r: Option<seq<Row>>)
    ensures r.Some? ==> r.value != [] && forall i | 0 <= i < |r.value| :: r.value[i] != []
    decreases |text|
  {
    match ReadRow(text)
    case None => None
    case Some(row) =>
      if |row.rest| <= 1 then Some([row.value])
      else
        match Read(row.rest[1..])
        case None => None
        case Some(rows) => Some([row.value] + rows)
  }

  // ---- Round trip ---------------------------------------------------------------------

  /** Nothing behind the field can be taken for a doubled quotation mark. */
  predicate Ends(rest: string) {
    rest == [] || rest[0] != '"'
  }

  lemma ReadOn(ch: char, tail: string, cell: string, rest: string)
    requires ReadQuoted(tail) == Some(Parsed(cell, rest))
    ensures ReadQuoted(Doubled(ch) + tail) == Some(Parsed([ch] + cell, rest))
  {
    assert (Doubled(ch) + tail)[|Doubled(ch)|..] == tail;
  }

  lemma Closing(rest: string)
    requires Ends(rest)
    ensures ReadQuoted(['"'] + rest) == Some(Parsed([], rest))
  {
    var text := ['"'] + rest;
    assert text[0] == '"' && text[1..] == rest;
  }

  lemma Escaped(cell: string, behind: string)
    requires cell != []
    ensures Escape(cell) + behind == Doubled(cell[0]) + (Escape(cell[1..]) + behind)
  {
    hide Doubled;
    Associative(Doubled(cell[0]), Escape(cell[1..]), behind);
  }

  lemma Associative(a: string, b: string, c: string)
    ensures a + b + c == a + (b + c)
  {
  }

  lemma {:induction false} QuotedReadsBack(cell: string, rest: string)
    requires Ends(rest)
    ensures ReadQuoted(Escape(cell) + (['"'] + rest)) == Some(Parsed(cell, rest))
  {
    hide ReadQuoted;
    hide Doubled;
    var behind := ['"'] + rest;
    if cell == [] {
      assert Escape(cell) + behind == behind;
      Closing(rest);
    } else {
      hide Escape;
      QuotedReadsBack(cell[1..], rest);
      ReadOn(cell[0], Escape(cell[1..]) + behind, cell[1..], rest);
      Escaped(cell, behind);
      assert [cell[0]] + cell[1..] == cell;
    }
  }

  lemma FieldReadsBack(cell: string, rest: string)
    requires Ends(rest)
    ensures ReadField(Quote(cell) + rest) == Some(Parsed(cell, rest))
  {
    hide ReadQuoted;
    QuotedReadsBack(cell, rest);
    assert (Quote(cell) + rest)[1..] == Escape(cell) + (['"'] + rest);
  }

  lemma RowEnds(text: string, cell: string, rest: string)
    requires ReadField(text) == Some(Parsed(cell, rest)) && (rest == [] || rest[0] == '\n')
    ensures ReadRow(text) == Some(Parsed([cell], rest))
  {
    hide ReadField;
  }

  lemma RowGoesOn(text: string, cell: string, tail: string, row: Row, rest: string)
    requires ReadField(text) == Some(Parsed(cell, [','] + tail)) && ReadRow(tail) == Some(Parsed(row, rest))
    ensures ReadRow(text) == Some(Parsed([cell] + row, rest))
  {
    hide ReadField;
    assert ([','] + tail)[1..] == tail;
  }

  lemma {:induction false} RowReadsBack(row: Row, rest: string)
    requires row != [] && (rest == [] || rest[0] == '\n')
    ensures ReadRow(WriteRow(row) + rest) == Some(Parsed(row, rest))
  {
    hide ReadRow;
    hide ReadField;
    hide Quote;
    if |row| == 1 {
      FieldReadsBack(row[0], rest);
      RowEnds(Quote(row[0]) + rest, row[0], rest);
      assert [row[0]] == row;
    } else {
      var tail := WriteRow(row[1..]) + rest;
      RowReadsBack(row[1..], rest);
      FieldReadsBack(row[0], [','] + tail);
      RowGoesOn(Quote(row[0]) + ([','] + tail), row[0], tail, row[1..], rest);
      assert WriteRow(row) + rest == Quote(row[0]) + ([','] + tail);
      assert [row[0]] + row[1..] == row;
    }
  }

  lemma WrittenNotEmpty(rows: seq<Row>)
    requires rows != [] && rows[0] != []
    ensures Write(rows) != []
  {
  }

  lemma ReadEnds(text: string, row: Row)
    requires ReadRow(text) == Some(Parsed(row, []))
    ensures Read(text) == Some([row])
  {
    hide ReadRow;
  }

  lemma ReadGoesOn(text: string, row: Row, tail: string, rows: seq<Row>)
    requires ReadRow(text) == Some(Parsed(row, ['\n'] + tail)) && tail != [] && Read(tail) == Some(rows)
    ensures Read(text) == Some([row] + rows)
  {
    hide ReadRow;
    assert (['\n'] + tail)[1..] == tail;
  }

  lemma {:induction false} RowsReadBack(rows: seq<Row>)
    requires rows != [] && forall i | 0 <= i < |rows| :: rows[i] != []
    ensures Read(Write(rows)) == Some(rows)
  {
    hide Read;
    hide ReadRow;
    hide WriteRow;
    if |rows| == 1 {
      RowReadsBack(rows[0], []);
      assert WriteRow(rows[0]) + [] == Write(rows);
      ReadEnds(Write(rows), rows[0]);
      assert [rows[0]] == rows;
    } else {
      var tail := Write(rows[1..]);
      RowsReadBack(rows[1..]);
      WrittenNotEmpty(rows[1..]);
      RowReadsBack(rows[0], ['\n'] + tail);
      ReadGoesOn(WriteRow(rows[0]) + (['\n'] + tail), rows[0], tail, rows[1..]);
      assert Write(rows) == WriteRow(rows[0]) + (['\n'] + tail);
      assert [rows[0]] + rows[1..] == rows;
    }
  }

  /** What is written reads back as it was, whatever quotation marks, commas and line
      breaks the cells hold, exactly if there are rows and none of them is empty. */
  lemma RoundTrip(rows: seq<Row>)
    ensures Read(Write(rows)) == Some(rows) <==> rows != [] && forall i | 0 <= i < |rows| :: rows[i] != []
  {
    hide Read;
    hide Write;
    if rows != [] && forall i | 0 <= i < |rows| :: rows[i] != [] {
      RowsReadBack(rows);
    }
  }

  // ---- The report ---------------------------------------------------------------------

  datatype Contribution = Contribution(wallet: string, amount: string, hash: string, time: string, refunded: bool)

  function Header(): Row {
    ["Wallet Address", "Amount", "Token", "Transaction Hash", "Date/Time", "Refunded"]
  }

  function Report(contributions: seq<Contribution>, token: string): seq<Row> {
    [Header()] + seq(|contributions|, i requires 0 <= i < |contributions| =>
      var c := contributions[i];
      [c.wallet, c.amount, token, c.hash, c.time, if c.refunded then "Yes" else "No"])
  }

  /** The text holds these columns under their headings, one record for each contribution
      in order: the wallet, the amount, the token, the hash, the time, and Yes or No. */
  ghost predicate Tabulates(text: string, contributions: seq<Contribution>, token: string) {
    var read := Read(text);
    && read.Some? && |read.value| == |contributions| + 1
    && read.value[0] == ["Wallet Address", "Amount", "Token", "Transaction Hash", "Date/Time", "Refunded"]
    && forall i | 0 <= i < |contributions| ::
         var c, record := contributions[i], read.value[i + 1];
         && |record| == 6 && record[0] == c.wallet && record[1] == c.amount && record[2] == token
         && record[3] == c.hash && record[4] == c.time && record[5] == (if c.refunded then "Yes" else "No")
  }

  /** A downloaded report holds a header and one record of six fields for each
      contribution, in order, and tells different contribution lists apart. */
  lemma ReportReadsBack(contributions: seq<Contribution>, token: string)
    ensures Tabulates(Write(Report(contributions, token)), contributions, token)
    ensures Read(Write(Report(contributions, token))) == Some(Report(contributions, token))
    ensures forall other | Write(Report(other, token)) == Write(Report(contributions, token)) :: other == contributions
  {
    hide Write;
    hide Read;
    SixFields(contributions, token);
    RoundTrip(Report(contributions, token));
    forall other | Write(Report(other, token)) == Write(Report(contributions, token))
      ensures other == contributions
    {
      SixFields(other, token);
      RoundTrip(Report(other, token));
      SameReport(contributions, other, token);
    }
  }

  lemma SixFields(contributions: seq<Contribution>, token: string)
    ensures |Report(contributions, token)| == |contributions| + 1
    ensures forall i | 0 <= i <= |contributions| :: |Report(contributions, token)[i]| == 6 == |Header()|
    ensures forall i | 0 <= i < |Report(contributions, token)| :: Report(contributions, token)[i] != []
  {
  }

  lemma SameReport(a: seq<Contribution>, b: seq<Contribution>, token: string)
    requires Report(a, token) == Report(b, token)
    ensures a == b
  {
    assert |a| == |Report(a, token)| - 1 == |b|;
    forall i | 0 <= i < |a|
      ensures a[i] == b[i]
    {
      var x, y := Report(a, token)[i + 1], Report(b, token)[i + 1];
      assert x[0] == a[i].wallet && x[1] == a[i].amount && x[3] == a[i].hash && x[4] == a[i].time;
      assert y[0] == b[i].wallet && y[1] == b[i].amount && y[3] == b[i].hash && y[4] == b[i].time;
      assert |x[5]| == if a[i].refunded then 3 else 2;
      assert |y[5]| == if b[i].refunded then 3 else 2;
    }
  }
}
