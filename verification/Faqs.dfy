/** Frequently asked questions as a spreadsheet: what the export prints and the import reads back. */
module Faqs {
  import opened Wrappers
  import Text

  type Id = string

  datatype Faq = Faq(category: string, question: string, answer: string, ordering: int, published: bool)

  /** A cell's value. `Other` is any value that only reads back as its string form. */
  datatype Cell = Blank | Plain(text: string) | Rich(text: string) | Number(value: int) | Flag(on: bool) | Other(shown: string)

  type Row = seq<Cell>

  type Sheet = seq<Row>

  /** What Number(s) yields, as far as the import cares. */
  datatype Numeric = NotFinite | Whole(value: int) | Fraction

  datatype Reason = MissingText | NotANumber(raw: string) | Rejected

  datatype Report = Report(created: nat, updated: nat, skipped: nat, errors: seq<(nat, Reason)>)

  /** Strings other than plain decimal integers are converted by `other`. */
  function ToNumber(s: string, other: string -> Numeric): Numeric {
    if Text.IsInteger(s) then Whole(Text.IntegerValue(s)) else other(s)
  }

  /** The width of the ordering column. */
  predicate FitsColumn(n: int) {
    -0x8000_0000 <= n < 0x8000_0000
  }

  // ---------------------------------------------------------------- reading cells

  function CellAt(row: Row, col: nat): Cell {
    if 1 <= col <= |row| then row[col - 1] else Blank
  }

  function CellStr(row: Row, col: nat): string {
    match CellAt(row, col)
    case Blank => ""
    case Plain(s) => Text.Trim(s)
    case Rich(s) => Text.Trim(s)
    case Number(n) => Text.IntToString(n)
    case Flag(b) => if b then "true" else "false"
    case Other(s) => Text.Trim(s)
  }

  function HeaderName(c: Cell): string {
    var shown := match c
      case Blank => ""
      case Plain(s) => s
      case Rich(_) => "[object Object]"
      case Number(n) => Text.IntToString(n)
      case Flag(b) => if b then "true" else "false"
      case Other(s) => s;
    Text.Squeeze(Text.Lower(Text.Trim(shown)))
  }

  function HeaderNames(header: Row): (names: seq<string>)
    ensures |names| == |header|
  {
    if |header| == 0 then [] else HeaderNames(header[..|header| - 1]) + [HeaderName(header[|header| - 1])]
  }

  /** The last column with the name, counting from 1; 0 when there is none. */
  function Column(names: seq<string>, name: string): (col: nat)
    ensures col <= |names|
    ensures col > 0 ==> names[col - 1] == name
    ensures forall k :: col <= k < |names| ==> names[k] != name
  {
    if |names| == 0 then 0
    else if names[|names| - 1] == name then |names|
    else Column(names[..|names| - 1], name)
  }

  datatype Columns = Columns(id: nat, category: nat, question: nat, answer: nat, ordering: nat, published: nat)

  function ReadColumns(header: Row): Columns {
    NamedColumns(HeaderNames(header))
  }

  function NamedColumns(names: seq<string>): Columns {
    Columns(Column(names, "id"), Column(names, "category"), Column(names, "question"),
            Column(names, "answer"), Column(names, "ordering"), Column(names, "published"))
  }

  predicate SaysPublished(raw: string) {
    raw == "" || raw == "yes" || raw == "true" || raw == "1" || raw == "y"
  }

  datatype Parsed = Empty | Bad(reason: Reason) | Entry(id: Id, faq: Faq)

  function Parse(row: Row, c: Columns, other: string -> Numeric): Parsed {
    ParseTexts(CellStr(row, c.id), CellStr(row, c.category), CellStr(row, c.question), CellStr(row, c.answer),
               CellStr(row, c.ordering), CellStr(row, c.published), other)
  }

  function ParseTexts(id: Id, category: string, question: string, answer: string, raw: string, published: string,
                      other: string -> Numeric): Parsed
  {
    if category == "" && question == "" && answer == "" then Empty
    else if category == "" || question == "" || answer == "" then Bad(MissingText)
    else
      var ordering := if raw == "" then Whole(0) else ToNumber(raw, other);
      match ordering
      case NotFinite => Bad(NotANumber(raw))
      case Fraction => Bad(Rejected)
      case Whole(n) =>
        if !FitsColumn(n) then Bad(Rejected)
        else Entry(id, Faq(category, question, answer, n, SaysPublished(Text.Lower(published))))
  }

  /** How a cell of the row reads: text and rich text trimmed, numbers and flags as they print,
      and nothing where the row ends or the column is missing. */
  lemma CellReads(row: Row, col: nat)
    ensures col == 0 || col > |row| ==> CellStr(row, col) == ""
    ensures 1 <= col <= |row| ==>
              match row[col - 1]
              case Blank => CellStr(row, col) == ""
              case Plain(s) => CellStr(row, col) == Text.Trim(s)
              case Rich(s) => CellStr(row, col) == Text.Trim(s)
              case Number(n) => CellStr(row, col) == Text.IntToString(n)
              case Flag(b) => CellStr(row, col) == if b then "true" else "false"
              case Other(s) => CellStr(row, col) == Text.Trim(s)
  {
  }

  /** What counts as published: nothing said, or yes in one of four words. */
  lemma PublishedWords(raw: string)
    ensures SaysPublished(raw) <==> raw in ["", "yes", "true", "1", "y"]
  {
  }

  /** What a row with these six texts is: nothing, a complaint, or an entry as written. */
  ghost predicate IsRowOf(p: Parsed, id: string, category: string, question: string, answer: string, raw: string,
                          published: string, other: string -> Numeric)
  {
    var number := if |raw| == 0 then Whole(0) else if Text.IsInteger(raw) then Whole(Text.IntegerValue(raw)) else other(raw);
    if |category| == 0 && |question| == 0 && |answer| == 0 then p == Empty
    else if |category| == 0 || |question| == 0 || |answer| == 0 then p == Bad(MissingText)
    else match number
         case NotFinite => p == Bad(NotANumber(raw))
         case Fraction => p == Bad(Rejected)
         case Whole(n) =>
           if n < -0x8000_0000 || n >= 0x8000_0000 then p == Bad(Rejected)
           else
             && p.Entry? && p.id == id
             && p.faq.category == category && p.faq.question == question && p.faq.answer == answer
             && p.faq.ordering == n && p.faq.published == SaysPublished(Text.Lower(published))
  }

  lemma RowReads(row: Row, c: Columns, other: string -> Numeric)
    ensures IsRowOf(Parse(row, c, other), CellStr(row, c.id), CellStr(row, c.category), CellStr(row, c.question),
                    CellStr(row, c.answer), CellStr(row, c.ordering), CellStr(row, c.published), other)
  {
    TextsRead(CellStr(row, c.id), CellStr(row, c.category), CellStr(row, c.question), CellStr(row, c.answer),
              CellStr(row, c.ordering), CellStr(row, c.published), other);
  }

  lemma TextsRead(id: string, category: string, question: string, answer: string, raw: string, published: string,
                  other: string -> Numeric)
    ensures IsRowOf(ParseTexts(id, category, question, answer, raw, published, other),
                    id, category, question, answer, raw, published, other)
  {
  }

  // ---------------------------------------------------------------- importing

  /** The id the database draws for a new row. */
  ghost predicate DrawsFresh(supply: set<Id> -> Id) {
    forall taken :: supply(taken) !in taken
  }

  /** The effect of one row on the table and the report; `line` is its number in the sheet. */
  function ImportRow(faqs: map<Id, Faq>, report: Report, line: nat, p: Parsed, supply: set<Id> -> Id)
    : (map<Id, Faq>, Report)
  {
    match p
    case Empty => (faqs, report.(skipped := report.skipped + 1))
    case Bad(reason) => (faqs, report.(errors := report.errors + [(line, reason)]))
    case Entry(id, faq) =>
      if id != "" && id in faqs then (faqs[id := faq], report.(updated := report.updated + 1))
      else (faqs[supply(faqs.Keys) := faq], report.(created := report.created + 1))
  }

  /** What a row leaves: an entry with a known id rewrites that FAQ and is counted as updated; any
      other entry becomes a new FAQ, stored as read under an id not used before, and is counted as
      created; a blank row is counted as skipped and a bad one noted with its line. No other FAQ
      changes. */
  lemma RowLeaves(faqs: map<Id, Faq>, report: Report, line: nat, p: Parsed, supply: set<Id> -> Id)
    requires DrawsFresh(supply)
    ensures var (now, after) := ImportRow(faqs, report, line, p, supply);
            match p
            case Empty => now == faqs && after == report.(skipped := report.skipped + 1)
            case Bad(reason) => now == faqs && after == report.(errors := report.errors + [(line, reason)])
            case Entry(id, faq) =>
              if |id| > 0 && id in faqs
              then now == faqs[id := faq] && after == report.(updated := report.updated + 1)
              else && after == report.(created := report.created + 1)
                   && exists k :: k !in faqs && now == faqs[k := faq]
  {
    if p.Entry? && !(|p.id| > 0 && p.id in faqs) {
      var k := supply(faqs.Keys);
      assert k !in faqs && ImportRow(faqs, report, line, p, supply).0 == faqs[k := p.faq];
    }
  }

  const EMPTY_REPORT := Report(0, 0, 0, [])

  function ParseAll(rows: seq<Row>, c: Columns, other: string -> Numeric): (ps: seq<Parsed>)
    ensures |ps| == |rows|
  {
    seq(|rows|, i requires 0 <= i < |rows| => Parse(rows[i], c, other))
  }

  /** The loop over the data rows, once they have been read; the first is line 2 of the sheet. */
  function ImportAll(faqs: map<Id, Faq>, ps: seq<Parsed>, supply: set<Id> -> Id): (map<Id, Faq>, Report) {
    if |ps| == 0 then (faqs, EMPTY_REPORT)
    else
      var (sofar, report) := ImportAll(faqs, ps[..|ps| - 1], supply);
      ImportRow(sofar, report, |ps| + 1, ps[|ps| - 1], supply)
  }

  function Total(r: Report): nat {
    r.created + r.updated + r.skipped + |r.errors|
  }

  class FaqStore {
    var faqs: map<Id, Faq>

    constructor (faqs: map<Id, Faq>)
      ensures this.faqs == faqs
    {
      this.faqs := faqs;
    }

    /** None when a required column is missing; then nothing changes. Otherwise every data row
        is counted exactly once. */
    method ImportXlsx(sheet: Sheet, other: string -> Numeric, supply: set<Id> -> Id) returns (report: Option<Report>)
      modifies this
      ensures var c := ReadColumns(if |sheet| == 0 then [] else sheet[0]);
              if c.category > 0 && c.question > 0 && c.answer > 0 then
                && report.Some? && |sheet| > 0
                && (faqs, report.value) == ImportAll(old(faqs), ParseAll(sheet[1..], c, other), supply)
                && Total(report.value) == |sheet| - 1
              else report == None && faqs == old(faqs)
    {
      if |sheet| == 0 {
        assert ReadColumns([]).category == 0;
        return None;
      }
      var c := ReadColumns(sheet[0]);
      if c.category == 0 || c.question == 0 || c.answer == 0 {
        return None;
      }
      var counts := ImportParsed(ParseAll(sheet[1..], c, other), supply);
      return Some(counts);
    }

    /** The row loop. */
    method ImportParsed(ps: seq<Parsed>, supply: set<Id> -> Id) returns (report: Report)
      modifies this
      ensures (faqs, report) == ImportAll(old(faqs), ps, supply)
      ensures Total(report) == |ps|
    {
      var created, updated, skipped, errors := 0, 0, 0, [];
      for r := 2 to |ps| + 2
        invariant (faqs, Report(created, updated, skipped, errors)) == ImportAll(old(faqs), ps[..r - 2], supply)
        invariant created + updated + skipped + |errors| == r - 2
      {
        assert ps[..r - 1][..r - 2] == ps[..r - 2];
        match ps[r - 2]
        case Empty =>
          skipped := skipped + 1;
        case Bad(reason) =>
          errors := errors + [(r, reason)];
        case Entry(id, faq) =>
          if id != "" && id in faqs {
            faqs := faqs[id := faq];
            updated := updated + 1;
          } else {
            faqs := faqs[supply(faqs.Keys) := faq];
            created := created + 1;
          }
      }
      assert ps[..|ps|] == ps;
      return Report(created, updated, skipped, errors);
    }
  }

  // ---------------------------------------------------------------- exporting

  const HEADER: Row := [Plain("ID"), Plain("Category"), Plain("Question"), Plain("Answer"), Plain("Ordering"), Plain("Published")]

  function ExportRow(id: Id, f: Faq): Row {
    [Plain(id), Plain(f.category), Plain(f.question), Plain(f.answer), Number(f.ordering),
     Plain(PublishedText(f.published))]
  }

  function PublishedText(on: bool): string {
    if on then "yes" else "no"
  }

  /** An exported row has the six columns of the header, in its order; publication in a word. */
  lemma ExportWrites(id: Id, f: Faq)
    ensures |ExportRow(id, f)| == |HEADER|
    ensures ExportRow(id, f)[0] == Plain(id) && ExportRow(id, f)[1] == Plain(f.category)
    ensures ExportRow(id, f)[2] == Plain(f.question) && ExportRow(id, f)[3] == Plain(f.answer)
    ensures ExportRow(id, f)[4] == Number(f.ordering) && ExportRow(id, f)[5] == Plain(if f.published then "yes" else "no")
  {
  }

  /** `order` is the order the database lists the table in. */
  ghost predicate Lists(faqs: map<Id, Faq>, order: seq<Id>) {
    && (forall id :: id in order <==> id in faqs)
    && (forall i, j :: 0 <= i < j < |order| ==> order[i] != order[j])
  }

  function ExportRows(faqs: map<Id, Faq>, order: seq<Id>): (rows: seq<Row>)
    requires forall id :: id in order ==> id in faqs
    ensures |rows| == |order|
  {
    seq(|order|, i requires 0 <= i < |order| => ExportRow(order[i], faqs[order[i]]))
  }

  function ExportSheet(faqs: map<Id, Faq>, order: seq<Id>): Sheet
    requires forall id :: id in order ==> id in faqs
  {
    [HEADER] + ExportRows(faqs, order)
  }

  const EXPORT_COLUMNS := Columns(1, 2, 3, 4, 5, 6)

  predicate Letters(s: string) {
    forall i :: 0 <= i < |s| ==> 'A' <= s[i] <= 'Z' || 'a' <= s[i] <= 'z'
  }

  lemma LettersHaveNoSpaces(s: string)
    requires Letters(s)
    ensures Text.NoSpaces(s)
  {
  }

  /** `name` is the word `shown` in lower case. */
  ghost predicate HeaderWord(shown: string, name: string) {
    && Letters(shown) && Letters(name)
    && |shown| == |name| && forall i :: 0 <= i < |shown| ==> name[i] == Text.LowerChar(shown[i])
  }

  lemma HeaderReads(shown: string, name: string)
    requires HeaderWord(shown, name)
    ensures HeaderName(Plain(shown)) == name
  {
    LettersHaveNoSpaces(shown);
    LettersHaveNoSpaces(name);
    Text.WordsAreLeftAlone(shown);
    Text.WordsAreLeftAlone(name);
    assert Text.Lower(shown) == name;
  }

  /** A header cell reads as its words run together in lower case; numbers and flags as they
      print, and rich text as no word of its own. */
  lemma HeaderReadsAs(s: string, n: int, on: bool)
    ensures HeaderName(Plain(s)) == Text.Squeeze(Text.Lower(Text.Trim(s))) && HeaderName(Other(s)) == HeaderName(Plain(s))
    ensures HeaderName(Number(n)) == HeaderName(Plain(Text.IntToString(n)))
    ensures HeaderName(Flag(on)) == HeaderName(Plain(if on then "true" else "false"))
    ensures HeaderName(Rich(s)) == HeaderName(Plain("[object Object]")) && HeaderName(Blank) == ""
  {
  }

  lemma {:induction false} HeaderNamesAt(header: Row, k: nat, name: string)
    requires k < |header| && HeaderName(header[k]) == name
    ensures HeaderNames(header)[k] == name
  {
    if k < |header| - 1 {
      HeaderNamesAt(header[..|header| - 1], k, name);
    }
  }

  /** A header cell holding a word reads as the word in lower case. */
  lemma HeaderCell(header: Row, k: nat, shown: string, name: string)
    requires k < |header| && header[k] == Plain(shown) && HeaderWord(shown, name)
    ensures HeaderNames(header)[k] == name
  {
    HeaderReads(shown, name);
    HeaderNamesAt(header, k, name);
  }

  lemma IdWord()
    ensures HeaderWord("ID", "id")
  {
  }

  lemma CategoryWord()
    ensures HeaderWord("Category", "category")
  {
  }

  lemma QuestionWord()
    ensures HeaderWord("Question", "question")
  {
  }

  lemma AnswerWord()
    ensures HeaderWord("Answer", "answer")
  {
  }

  lemma OrderingWord()
    ensures HeaderWord("Ordering", "ordering")
  {
  }

  lemma PublishedWord()
    ensures HeaderWord("Published", "published")
  {
  }

  /** The import finds each exported column where the export put it. */
  lemma ExportedHeader(header: Row)
    requires header == HEADER
    ensures ReadColumns(header) == EXPORT_COLUMNS
  {
    IdWord();
    CategoryWord();
    QuestionWord();
    AnswerWord();
    OrderingWord();
    PublishedWord();
    HeaderCell(header, 0, "ID", "id");
    HeaderCell(header, 1, "Category", "category");
    HeaderCell(header, 2, "Question", "question");
    HeaderCell(header, 3, "Answer", "answer");
    HeaderCell(header, 4, "Ordering", "ordering");
    HeaderCell(header, 5, "Published", "published");
    ColumnsFrom(HeaderNames(header));
  }

  lemma ColumnsFrom(names: seq<string>)
    requires |names| == 6 && names[0] == "id" && names[1] == "category" && names[2] == "question"
    requires names[3] == "answer" && names[4] == "ordering" && names[5] == "published"
    ensures NamedColumns(names) == EXPORT_COLUMNS
  {
  }

  // ---------------------------------------------------------------- the round trip

  function Tidied(f: Faq): Faq {
    f.(category := Text.Trim(f.category), question := Text.Trim(f.question), answer := Text.Trim(f.answer))
  }

  predicate Complete(f: Faq) {
    Tidied(f).category != "" && Tidied(f).question != "" && Tidied(f).answer != ""
  }

  /** Its texts are non-empty and carry no white space at either end. */
  predicate Clean(f: Faq) {
    Complete(f) && Tidied(f) == f
  }

  /** What the database guarantees: ids are non-empty words, orderings fit their column. */
  ghost predicate Stored(faqs: map<Id, Faq>) {
    forall id :: id in faqs ==> id != "" && Text.IsTrimmed(id) && FitsColumn(faqs[id].ordering)
  }

  lemma ExportedRowReads(id: Id, f: Faq, other: string -> Numeric)
    requires Text.IsTrimmed(id) && FitsColumn(f.ordering)
    ensures var p := Parse(ExportRow(id, f), EXPORT_COLUMNS, other);
            ReadsBack(p, id, f)
  {
    ExportedCells(id, f);
    Text.IntRoundTrip(f.ordering);
    PublishedReads(f.published);
  }

  lemma ExportedCells(id: Id, f: Faq)
    requires Text.IsTrimmed(id)
    ensures var row := ExportRow(id, f);
            && CellStr(row, 1) == id && CellStr(row, 2) == Tidied(f).category && CellStr(row, 3) == Tidied(f).question
            && CellStr(row, 4) == Tidied(f).answer && CellStr(row, 5) == Text.IntToString(f.ordering)
            && CellStr(row, 6) == Text.Trim(PublishedText(f.published))
  {
    ExportWrites(id, f);
    CellsRead(ExportRow(id, f), id, f);
  }

  lemma CellsRead(row: Row, id: Id, f: Faq)
    requires Text.IsTrimmed(id) && |row| == 6 && row[0] == Plain(id) && row[1] == Plain(f.category)
    requires row[2] == Plain(f.question) && row[3] == Plain(f.answer) && row[4] == Number(f.ordering)
    requires row[5] == Plain(PublishedText(f.published))
    ensures CellStr(row, 1) == id && CellStr(row, 2) == Tidied(f).category && CellStr(row, 3) == Tidied(f).question
    ensures CellStr(row, 4) == Tidied(f).answer && CellStr(row, 5) == Text.IntToString(f.ordering)
    ensures CellStr(row, 6) == Text.Trim(PublishedText(f.published))
  {
    PlainCell(row, 1, id);
    PlainCell(row, 2, f.category);
    PlainCell(row, 3, f.question);
    PlainCell(row, 4, f.answer);
    PlainCell(row, 6, PublishedText(f.published));
  }

  lemma PlainCell(row: Row, col: nat, text: string)
    requires 1 <= col <= |row| && row[col - 1] == Plain(text)
    ensures CellStr(row, col) == Text.Trim(text)
  {
  }

  lemma PublishedReads(on: bool)
    ensures SaysPublished(Text.Lower(Text.Trim(PublishedText(on)))) == on
  {
  }

  /** Each row either names the FAQ listed at its place or is not an entry at all. */
  ghost predicate InPlace(order: seq<Id>, ps: seq<Parsed>) {
    |ps| == |order| && forall i :: 0 <= i < |ps| ==> ps[i].Entry? ==> ps[i].id == order[i]
  }

  ghost predicate AllEntries(ps: seq<Parsed>) {
    forall i :: 0 <= i < |ps| ==> ps[i].Entry?
  }

  /** The first `n` listed FAQs have been replaced where their row is an entry; each of those
      counts as one update, the others as none. */
  ghost predicate ReplacedSoFar(faqs: map<Id, Faq>, order: seq<Id>, ps: seq<Parsed>, n: nat, now: map<Id, Faq>, report: Report)
    requires |ps| == |order| && n <= |order| && forall id :: id in order ==> id in faqs
  {
    && now.Keys == faqs.Keys
    && (forall i :: 0 <= i < |order| ==> now[order[i]] == if i < n && ps[i].Entry? then ps[i].faq else faqs[order[i]])
    && report.created == 0 && report.updated <= n && Total(report) == n
    && (report.updated == n <==> AllEntries(ps[..n]))
  }

  lemma {:induction false} ImportInPlace(faqs: map<Id, Faq>, order: seq<Id>, ps: seq<Parsed>, n: nat, supply: set<Id> -> Id)
    requires Lists(faqs, order) && InPlace(order, ps) && n <= |order| && "" !in faqs
    ensures var (now, report) := ImportAll(faqs, ps[..n], supply);
            ReplacedSoFar(faqs, order, ps, n, now, report)
  {
    if n > 0 {
      ImportInPlace(faqs, order, ps, n - 1, supply);
      assert ps[..n][..n - 1] == ps[..n - 1];
      var (now, report) := ImportAll(faqs, ps[..n - 1], supply);
      OneRowInPlace(faqs, order, ps, n - 1, now, report, supply);
    }
  }

  lemma OneRowInPlace(faqs: map<Id, Faq>, order: seq<Id>, ps: seq<Parsed>, n: nat, now: map<Id, Faq>, report: Report,
                      supply: set<Id> -> Id)
    requires Lists(faqs, order) && InPlace(order, ps) && n < |order| && "" !in faqs
    requires ReplacedSoFar(faqs, order, ps, n, now, report)
    ensures var (next, longer) := ImportRow(now, report, n + 2, ps[n], supply);
            ReplacedSoFar(faqs, order, ps, n + 1, next, longer)
  {
    assert order[n] in faqs;
    OneMoreEntry(ps, n);
    if ps[n].Entry? {
      EntryInPlace(faqs, order, ps, n, now, report);
    } else {
      PassedOver(now, report, n + 2, ps[n], supply);
    }
  }

  lemma EntryInPlace(faqs: map<Id, Faq>, order: seq<Id>, ps: seq<Parsed>, n: nat, now: map<Id, Faq>, report: Report)
    requires Lists(faqs, order) && InPlace(order, ps) && n < |order| && ps[n].Entry?
    requires ReplacedSoFar(faqs, order, ps, n, now, report)
    ensures ReplacedSoFar(faqs, order, ps, n + 1, now[order[n] := ps[n].faq], report.(updated := report.updated + 1))
  {
    OneMoreEntry(ps, n);
    ReplacedNext(faqs, order, ps, n, now);
  }

  lemma PassedOver(faqs: map<Id, Faq>, report: Report, line: nat, p: Parsed, supply: set<Id> -> Id)
    requires !p.Entry?
    ensures var (next, longer) := ImportRow(faqs, report, line, p, supply);
            && next == faqs && longer.created == report.created && longer.updated == report.updated
            && Total(longer) == Total(report) + 1
  {
  }

  lemma ReplacedNext(faqs: map<Id, Faq>, order: seq<Id>, ps: seq<Parsed>, n: nat, now: map<Id, Faq>)
    requires Lists(faqs, order) && |ps| == |order| && n < |order| && ps[n].Entry?
    requires now.Keys == faqs.Keys
    requires forall i :: 0 <= i < |order| ==> now[order[i]] == if i < n && ps[i].Entry? then ps[i].faq else faqs[order[i]]
    ensures order[n] in faqs && now[order[n] := ps[n].faq].Keys == faqs.Keys
    ensures var next := now[order[n] := ps[n].faq];
            forall i :: 0 <= i < |order| ==> next[order[i]] == if i < n + 1 && ps[i].Entry? then ps[i].faq else faqs[order[i]]
  {
    assert order[n] in faqs;
    assert forall i :: 0 <= i < |order| && i != n ==> order[i] != order[n];
  }

  lemma OneMoreEntry(ps: seq<Parsed>, n: nat)
    requires n < |ps|
    ensures AllEntries(ps[..n + 1]) <==> AllEntries(ps[..n]) && ps[n].Entry?
  {
  }

  /** What reading back the exported row of one FAQ yields. */
  ghost predicate ReadsBack(p: Parsed, id: Id, f: Faq) {
    if Complete(f) then p == Entry(id, Tidied(f)) else p.Empty? || p.Bad?
  }

  lemma CleanIff(p: Parsed, id: Id, f: Faq)
    requires ReadsBack(p, id, f)
    ensures Clean(f) <==> p == Entry(id, f)
  {
  }

  /** Importing an export: the table comes back as it was, with every row counted as updated
      and none as created, skipped or wrong, if and only if every FAQ is clean. */
  lemma RoundTripIff(faqs: map<Id, Faq>, order: seq<Id>, other: string -> Numeric, supply: set<Id> -> Id)
    requires Stored(faqs) && Lists(faqs, order)
    ensures var sheet := ExportSheet(faqs, order);
            var c := ReadColumns(sheet[0]);
            var (now, report) := ImportAll(faqs, ParseAll(sheet[1..], c, other), supply);
            && c.category > 0 && c.question > 0 && c.answer > 0
            && ((now == faqs && report == Report(0, |order|, 0, [])) <==> AllClean(faqs))
  {
    var sheet := ExportSheet(faqs, order);
    ExportedHeader(sheet[0]);
    var ps := ParseAll(ExportRows(faqs, order), EXPORT_COLUMNS, other);
    assert sheet[1..] == ExportRows(faqs, order);
    forall i | 0 <= i < |order|
      ensures ps[i].Entry? ==> ps[i].id == order[i]
      ensures Clean(faqs[order[i]]) <==> ps[i] == Entry(order[i], faqs[order[i]])
    {
      ExportedRowReads(order[i], faqs[order[i]], other);
      CleanIff(ps[i], order[i], faqs[order[i]]);
    }
    TableReturnsIff(faqs, order, ps, supply);
  }

  ghost predicate AllClean(faqs: map<Id, Faq>) {
    forall id :: id in faqs ==> Clean(faqs[id])
  }

  lemma TableReturnsIff(faqs: map<Id, Faq>, order: seq<Id>, ps: seq<Parsed>, supply: set<Id> -> Id)
    requires Lists(faqs, order) && InPlace(order, ps) && "" !in faqs
    requires forall i :: 0 <= i < |order| ==> (Clean(faqs[order[i]]) <==> ps[i] == Entry(order[i], faqs[order[i]]))
    ensures var (now, report) := ImportAll(faqs, ps, supply);
            (now == faqs && report == Report(0, |order|, 0, [])) <==> AllClean(faqs)
  {
    assert ps[..|order|] == ps;
    ImportInPlace(faqs, order, ps, |order|, supply);
    var (now, report) := ImportAll(faqs, ps, supply);
    if now == faqs && report == Report(0, |order|, 0, []) {
      ReturnedWasClean(faqs, order, ps, report);
    }
    if AllClean(faqs) {
      CleanReturns(faqs, order, ps, now, report);
    }
  }

  lemma ReturnedWasClean(faqs: map<Id, Faq>, order: seq<Id>, ps: seq<Parsed>, report: Report)
    requires Lists(faqs, order) && InPlace(order, ps)
    requires forall i :: 0 <= i < |order| ==> (Clean(faqs[order[i]]) <==> ps[i] == Entry(order[i], faqs[order[i]]))
    requires ReplacedSoFar(faqs, order, ps, |order|, faqs, report) && report.updated == |order|
    ensures AllClean(faqs)
  {
    assert AllEntries(ps[..|order|]);
    forall id | id in faqs
      ensures Clean(faqs[id])
    {
      var i :| 0 <= i < |order| && order[i] == id;
      assert ps[i] == ps[..|order|][i];
      assert ps[i].Entry? && faqs[order[i]] == ps[i].faq;
    }
  }

  lemma CleanReturns(faqs: map<Id, Faq>, order: seq<Id>, ps: seq<Parsed>, now: map<Id, Faq>, report: Report)
    requires Lists(faqs, order) && InPlace(order, ps) && AllClean(faqs)
    requires forall i :: 0 <= i < |order| ==> (Clean(faqs[order[i]]) <==> ps[i] == Entry(order[i], faqs[order[i]]))
    requires ReplacedSoFar(faqs, order, ps, |order|, now, report)
    ensures now == faqs && report == Report(0, |order|, 0, [])
  {
    assert AllEntries(ps[..|order|]);
    forall id | id in faqs
      ensures now[id] == faqs[id]
    {
      var i :| 0 <= i < |order| && order[i] == id;
      assert Clean(faqs[order[i]]);
    }
  }

  /** Whatever the sheet, an import only adds: no FAQ is removed, the table grows by exactly the
      created count, and every data row is counted once. */
  lemma {:induction false} ImportOnlyAdds(faqs: map<Id, Faq>, ps: seq<Parsed>, supply: set<Id> -> Id)
    requires DrawsFresh(supply)
    ensures var (now, report) := ImportAll(faqs, ps, supply);
            && faqs.Keys <= now.Keys
            && |now| == |faqs| + report.created
            && Total(report) == |ps|
  {
    if |ps| > 0 {
      ImportOnlyAdds(faqs, ps[..|ps| - 1], supply);
      var (sofar, report) := ImportAll(faqs, ps[..|ps| - 1], supply);
      RowOnlyAdds(sofar, report, |ps| + 1, ps[|ps| - 1], supply);
    }
  }

  lemma RowOnlyAdds(faqs: map<Id, Faq>, report: Report, line: nat, p: Parsed, supply: set<Id> -> Id)
    requires DrawsFresh(supply)
    ensures var (next, longer) := ImportRow(faqs, report, line, p, supply);
            && faqs.Keys <= next.Keys
            && |next| - |faqs| == longer.created - report.created
            && Total(longer) == Total(report) + 1
  {
    match p
    case Entry(id, faq) =>
      var drawn := supply(faqs.Keys);
      assert drawn !in faqs;
      if id != "" && id in faqs {
        assert faqs[id := faq].Keys == faqs.Keys;
      } else {
        assert faqs[drawn := faq].Keys == faqs.Keys + {drawn};
      }
    case _ =>
  }
}
