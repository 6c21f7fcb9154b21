/** The attendance export: each roster entry becomes one CSV record, preceded by a
    header record. Fields that have a value are quoted with inner quotes doubled, as in
    section 2, item 7 of RFC 4180; null fields are empty and unquoted; fields are
    separated by ',' and records by a bare '\n' (RFC 4180 uses CRLF). The parser below
    reads this format back, and the round-trip lemmas show that nothing is lost. */
module AttendanceCsv {
  import opened Common
  import opened Roster

  /** A field as it appears in the text: unquoted, or quoted with its content. */
  datatype Cell = Bare(text: string) | Quoted(text: string)

  /** Doubles every '"', as `replace(/"/g, '""')` does. */
  function Escape(s: string): (r: string)
    ensures |r| >= |s|
  {
    if s == [] then [] else (if s[0] == '"' then "\"\"" else [s[0]]) + Escape(s[1..])
  }

  function EncodeCell(c: Cell): string {
    match c
    case Bare(t) => t
    case Quoted(t) => "\"" + Escape(t) + "\""
  }

  function EncodeCells(r: seq<Cell>): (r': seq<string>)
    ensures |r'| == |r|
  {
    seq(|r|, i requires 0 <= i < |r| => EncodeCell(r[i]))
  }

  function EncodeRecord(r: seq<Cell>): string {
    Join(EncodeCells(r), ',')
  }

  function EncodeRecords(rs: seq<seq<Cell>>): (r': seq<string>)
    ensures |r'| == |rs|
  {
    seq(|rs|, i requires 0 <= i < |rs| => EncodeRecord(rs[i]))
  }

  function EncodeDocument(rs: seq<seq<Cell>>): string {
    Join(EncodeRecords(rs), '\n')
  }

  // ---------------------------------------------------------------- parser

  /** An unquoted field runs to the next ',' or '\n' or to the end. */
  function ParseBare(s: string): (r: (string, string))
    ensures |r.1| <= |s|
  {
    if s == [] || s[0] == ',' || s[0] == '\n' then ([], s)
    else
      var (t, rest) := ParseBare(s[1..]);
      ([s[0]] + t, rest)
  }

  /** The inside of a quoted field, after its opening quote: '""' stands for '"' and a
      lone '"' closes the field. None when the closing quote is missing. */
  function ParseQuotedBody(s: string): (r: Option<(string, string)>)
    ensures r.Some? ==> |r.value.1| < |s|
  {
    if s == [] then None
    else if s[0] == '"' then
      if |s| >= 2 && s[1] == '"' then
        match ParseQuotedBody(s[2..])
        case None => None
        case Some((t, rest)) => Some(("\"" + t, rest))
      else Some(([], s[1..]))
    else
      match ParseQuotedBody(s[1..])
      case None => None
      case Some((t, rest)) => Some(([s[0]] + t, rest))
  }

  function ParseCell(s: string): (r: Option<(Cell, string)>)
    ensures r.Some? ==> |r.value.1| <= |s|
  {
    if s != [] && s[0] == '"' then
      match ParseQuotedBody(s[1..])
      case None => None
      case Some((t, rest)) => Some((Quoted(t), rest))
    else
      var (t, rest) := ParseBare(s);
      Some((Bare(t), rest))
  }

  /** The fields of one record, up to (not including) the '\n' that ends it. */
  function ParseRecord(s: string): (r: Option<(seq<Cell>, string)>)
    ensures r.Some? ==> |r.value.1| <= |s|
    decreases |s|
  {
    match ParseCell(s)
    case None => None
    case Some((c, rest)) =>
      if rest != [] && rest[0] == ',' then
        match ParseRecord(rest[1..])
        case None => None
        case Some((cs, rest')) => Some(([c] + cs, rest'))
      else Some(([c], rest))
  }

  /** All records of a document. None when text follows a closing quote. */
  function ParseDocument(s: string): Option<seq<seq<Cell>>>
    decreases |s|
  {
    match ParseRecord(s)
    case None => None
    case Some((record, rest)) =>
      if rest == [] then Some([record])
      else if rest[0] == '\n' then
        match ParseDocument(rest[1..])
        case None => None
        case Some(records) => Some([record] + records)
      else None
  }

  // ---------------------------------------------------------------- round trip

  /** Text that can stand unquoted: no separator and no quote. */
  predicate BareText(t: string) {
    forall i :: 0 <= i < |t| ==> t[i] != ',' && t[i] != '\n' && t[i] != '"'
  }

  predicate WellFormedCell(c: Cell) {
    c.Bare? ==> BareText(c.text)
  }

  predicate WellFormedRecord(r: seq<Cell>) {
    |r| >= 1 && forall i :: 0 <= i < |r| ==> WellFormedCell(r[i])
  }

  /** What may follow a field. */
  predicate FieldEnd(rest: string) {
    rest == [] || rest[0] == ',' || rest[0] == '\n'
  }

  lemma {:induction false} ParseBareInverse(t: string, rest: string)
    requires BareText(t) && FieldEnd(rest)
    ensures ParseBare(t + rest) == (t, rest)
  {
    if t == [] {
      assert t + rest == rest;
    } else {
      assert (t + rest)[0] == t[0];
      assert [t[0]] + t[1..] == t;
      assert (t + rest)[1..] == t[1..] + rest;
      assert BareText(t[1..]) by {
        forall i | 0 <= i < |t[1..]| ensures t[1..][i] == t[i + 1] { }
      }
      ParseBareInverse(t[1..], rest);
    }
  }

  /** Un-doubling recovers the quoted text. */
  lemma {:induction false} ParseQuotedInverse(t: string, rest: string)
    requires rest == [] || rest[0] != '"'
    ensures ParseQuotedBody(Escape(t) + "\"" + rest) == Some((t, rest))
  {
    if t == [] {
      assert Escape(t) + "\"" + rest == "\"" + rest;
    } else {
      var u := Escape(t[1..]) + "\"" + rest;
      ParseQuotedInverse(t[1..], rest);
      EscapeFront(t, rest);
      if t[0] == '"' {
        ParseQuotedDoubled(u, t[1..], rest);
      } else {
        ParseQuotedPlain(t[0], u, t[1..], rest);
      }
      assert [t[0]] + t[1..] == t;
    }
  }

  /** The escaped text, closing quote and what follows, split after the first character. */
  lemma EscapeFront(t: string, rest: string)
    requires t != []
    ensures Escape(t) + "\"" + rest
         == (if t[0] == '"' then "\"\"" else [t[0]]) + (Escape(t[1..]) + "\"" + rest)
  {
  }

  lemma ParseQuotedDoubled(u: string, t: string, rest: string)
    requires ParseQuotedBody(u) == Some((t, rest))
    ensures ParseQuotedBody("\"\"" + u) == Some(("\"" + t, rest))
  {
    var s := "\"\"" + u;
    assert s[0] == '"' && s[1] == '"' && s[2..] == u;
  }

  lemma ParseQuotedPlain(c: char, u: string, t: string, rest: string)
    requires c != '"'
    requires ParseQuotedBody(u) == Some((t, rest))
    ensures ParseQuotedBody([c] + u) == Some(([c] + t, rest))
  {
    var s := [c] + u;
    assert s[0] == c && s[1..] == u;
  }

  lemma ParseCellInverse(c: Cell, rest: string)
    requires WellFormedCell(c) && FieldEnd(rest)
    ensures ParseCell(EncodeCell(c) + rest) == Some((c, rest))
  {
    match c
    case Bare(t) =>
      ParseBareInverse(t, rest);
      if t != [] {
        assert (t + rest)[0] == t[0];
      }
    case Quoted(t) =>
      var s := EncodeCell(c) + rest;
      assert s[1..] == Escape(t) + "\"" + rest;
      ParseQuotedInverse(t, rest);
  }

  lemma {:induction false} ParseRecordInverse(r: seq<Cell>, rest: string)
    requires WellFormedRecord(r)
    requires rest == [] || rest[0] == '\n'
    ensures ParseRecord(EncodeRecord(r) + rest) == Some((r, rest))
    decreases |r|
  {
    if |r| == 1 {
      assert EncodeRecord(r) == EncodeCell(r[0]);
      ParseCellInverse(r[0], rest);
      assert [r[0]] == r;
    } else {
      var tail := EncodeRecord(r[1..]) + rest;
      EncodeRecordFront(r, rest);
      ParseCellInverse(r[0], "," + tail);
      ParseRecordInverse(r[1..], rest);
      ParseRecordStep(EncodeCell(r[0]) + ("," + tail), r[0], tail, r[1..], rest);
      assert [r[0]] + r[1..] == r;
    }
  }

  /** A record of two or more fields is its first field, a ',' and the remaining record. */
  lemma EncodeRecordFront(r: seq<Cell>, rest: string)
    requires |r| >= 2
    ensures EncodeRecord(r) + rest == EncodeCell(r[0]) + ("," + (EncodeRecord(r[1..]) + rest))
  {
    assert EncodeCells(r)[1..] == EncodeCells(r[1..]);
  }

  /** One step of the record parser: a field followed by ',' and a further record. */
  lemma ParseRecordStep(s: string, c: Cell, tail: string, cs: seq<Cell>, rest: string)
    requires ParseCell(s) == Some((c, "," + tail))
    requires ParseRecord(tail) == Some((cs, rest))
    ensures ParseRecord(s) == Some(([c] + cs, rest))
  {
    assert ("," + tail)[1..] == tail;
  }

  /** Parsing an encoded document gives back every record, field by field. */
  lemma {:induction false} ParseDocumentInverse(rs: seq<seq<Cell>>)
    requires |rs| >= 1
    requires forall i :: 0 <= i < |rs| ==> WellFormedRecord(rs[i])
    ensures ParseDocument(EncodeDocument(rs)) == Some(rs)
    decreases |rs|
  {
    if |rs| == 1 {
      assert EncodeDocument(rs) == EncodeRecord(rs[0]) + "";
      ParseRecordInverse(rs[0], "");
      assert [rs[0]] == rs;
    } else {
      var tail := EncodeDocument(rs[1..]);
      assert EncodeRecords(rs)[1..] == EncodeRecords(rs[1..]);
      assert EncodeDocument(rs) == EncodeRecord(rs[0]) + ("\n" + tail);
      ParseRecordInverse(rs[0], "\n" + tail);
      ParseDocumentInverse(rs[1..]);
      ParseDocumentStep(EncodeDocument(rs), rs[0], tail, rs[1..]);
      assert [rs[0]] + rs[1..] == rs;
    }
  }

  /** One step of the document parser: a record followed by '\n' and further records. */
  lemma ParseDocumentStep(s: string, r: seq<Cell>, tail: string, rs: seq<seq<Cell>>)
    requires ParseRecord(s) == Some((r, "\n" + tail))
    requires ParseDocument(tail) == Some(rs)
    ensures ParseDocument(s) == Some([r] + rs)
  {
    assert ("\n" + tail)[1..] == tail;
  }

  // ---------------------------------------------------------------- the export

  /** A row value as the serialiser sees it: null, or a value whose String() is `s`. */
  datatype Field = Null | Text(s: string)

  /** Null becomes an empty field, anything else a quoted one. */
  function FieldCell(f: Field): (c: Cell)
    ensures WellFormedCell(c)
  {
    match f
    case Null => Bare("")
    case Text(s) => Quoted(s)
  }

  function BoolText(b: bool): string {
    if b then "true" else "false"
  }

  /** The row built for one entry: `iso` stands for Date.prototype.toISOString. */
  datatype ExportRow = ExportRow(studentId: Field, fullName: string, email: string, joinedAt: string,
                                 leftAt: string, isPresent: bool)

  /** The populated user supplies id, name and e-mail; when the user no longer exists
      the id is null and name and e-mail are empty. Missing dates are empty text. */
  function RowOf(p: Participant, users: map<string, Profile>, iso: int -> string): ExportRow {
    var found := p.userId in users;
    ExportRow(if found then Text(p.userId) else Null,
              if found then users[p.userId].fullName else "",
              if found then users[p.userId].email else "",
              if p.joinedAt.Some? then iso(p.joinedAt.value) else "",
              if p.leftAt.Some? then iso(p.leftAt.value) else "",
              p.isPresent)
  }

  /** The rows of the JSON form of the export: one per entry, in roster order. */
  function ExportRows(ps: seq<Participant>, users: map<string, Profile>, iso: int -> string): (r: seq<ExportRow>)
    ensures |r| == |ps|
  {
    seq(|ps|, i requires 0 <= i < |ps| => RowOf(ps[i], users, iso))
  }

  const HeaderNames: seq<string> := ["studentId", "fullName", "email", "joinedAt", "leftAt", "isPresent"]

  /** No header name needs quoting. */
  lemma HeaderNamesBare()
    ensures BareText("studentId") && BareText("fullName") && BareText("email")
    ensures BareText("joinedAt") && BareText("leftAt") && BareText("isPresent")
  {
  }

  function HeaderCells(): (r: seq<Cell>)
    ensures WellFormedRecord(r)
  {
    HeaderNamesBare();
    [Bare("studentId"), Bare("fullName"), Bare("email"), Bare("joinedAt"), Bare("leftAt"), Bare("isPresent")]
  }

  /** The header fields in column order, each looked up as the field of its name. */
  function RowCells(row: ExportRow): (r: seq<Cell>)
    ensures WellFormedRecord(r)
  {
    [FieldCell(row.studentId), Quoted(row.fullName), Quoted(row.email), Quoted(row.joinedAt),
     Quoted(row.leftAt), Quoted(BoolText(row.isPresent))]
  }

  function Records(ps: seq<Participant>, users: map<string, Profile>, iso: int -> string): (r: seq<seq<Cell>>)
    ensures |r| == |ps| + 1
  {
    [HeaderCells()] + seq(|ps|, i requires 0 <= i < |ps| => RowCells(RowOf(ps[i], users, iso)))
  }

  /** The CSV text of the export. */
  function ExportCsv(ps: seq<Participant>, users: map<string, Profile>, iso: int -> string): string {
    EncodeDocument(Records(ps, users, iso))
  }

  /** The first record is the header names joined by ','. */
  lemma HeaderLine()
    ensures EncodeRecord(HeaderCells()) == Join(HeaderNames, ',')
  {
    assert EncodeCells(HeaderCells()) == HeaderNames;
  }

  /** Reading the export back gives the header and then, for each roster entry in order,
      its six fields: the id unquoted-empty exactly when it is null, and every other
      field quoted with exactly the text String() gave. */
  lemma ExportRoundTrip(ps: seq<Participant>, users: map<string, Profile>, iso: int -> string)
    ensures var parsed := ParseDocument(ExportCsv(ps, users, iso));
      && parsed.Some? && |parsed.value| == |ps| + 1
      && parsed.value[0] == HeaderCells()
      && forall k :: 0 <= k < |ps| ==>
           var row := RowOf(ps[k], users, iso);
           parsed.value[k + 1] == [FieldCell(row.studentId), Quoted(row.fullName), Quoted(row.email),
                                   Quoted(row.joinedAt), Quoted(row.leftAt), Quoted(BoolText(row.isPresent))]
  {
    ExportParses(ps, users, iso);
    RecordsAt(ps, users, iso);
  }

  lemma ExportParses(ps: seq<Participant>, users: map<string, Profile>, iso: int -> string)
    ensures ParseDocument(ExportCsv(ps, users, iso)) == Some(Records(ps, users, iso))
  {
    var rs := Records(ps, users, iso);
    forall i | 0 <= i < |rs| ensures WellFormedRecord(rs[i]) {
      if i > 0 {
        assert rs[i] == RowCells(RowOf(ps[i - 1], users, iso));
      }
    }
    ParseDocumentInverse(rs);
  }

  lemma RecordsAt(ps: seq<Participant>, users: map<string, Profile>, iso: int -> string)
    ensures var rs := Records(ps, users, iso);
      && rs[0] == HeaderCells()
      && forall k :: 0 <= k < |ps| ==> rs[k + 1] == RowCells(RowOf(ps[k], users, iso))
  {
  }

  /** The quoting keeps every value apart: a record never splits, because a field's
      text is recovered whole whatever commas, quotes or line breaks it contains. */
  lemma QuotedFieldRecovered(t: string, rest: string)
    requires FieldEnd(rest)
    ensures ParseCell(EncodeCell(Quoted(t)) + rest) == Some((Quoted(t), rest))
  {
    ParseCellInverse(Quoted(t), rest);
  }
}
