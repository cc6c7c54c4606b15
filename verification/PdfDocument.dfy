/**
 * The document layer of the built-in PDF writer (reports/generator.py, _write_builtin_pdf,
 * _pdf_text_stream and _pdf_escape), against a reader of literal strings that follows
 * ISO 32000-1:2008, section 7.3.4.2.
 */
module PdfDocument {
  import opened Options
  import opened Decimal
  import opened PdfFile

  const LinesPerPage := 54

  // ----- Text streams -----

  /** Python's str.replace for a single character. */
  function ReplaceAll(s: string, c: char, text: string): string {
    if s == "" then "" else (if s[0] == c then text else [s[0]]) + ReplaceAll(s[1..], c, text)
  }

  function Escape(s: string): string {
    ReplaceAll(ReplaceAll(ReplaceAll(ReplaceAll(s, '\\', "\\\\"), '(', "\\("), ')', "\\)"), '\r', "")
  }

  /** Encoding to Latin-1 with replacement. */
  function Latin1(s: string): (r: string)
    ensures |r| == |s|
    ensures forall k :: 0 <= k < |r| ==> r[k] == if s[k] as int < 256 then s[k] else '?'
  {
    if s == "" then "" else [if s[0] as int < 256 then s[0] else '?'] + Latin1(s[1..])
  }

  function DropReturns(s: string): string {
    if s == "" then "" else (if s[0] == '\r' then "" else [s[0]]) + DropReturns(s[1..])
  }

  function Prelude(): string { "BT\n/F1 9 Tf\n42 756 Td\n12 TL\n" }
  function ShowMark(): string { " Tj\nT*\n" }
  function EndText(): string { "ET" }

  function ShowLines(lines: seq<string>): string {
    if lines == [] then ""
    else ShowLines(lines[..|lines| - 1]) + "(" + Escape(lines[|lines| - 1]) + ")" + ShowMark()
  }

  /** Python's newline-separated join. */
  function Join(parts: seq<string>): string {
    if parts == [] then ""
    else if |parts| == 1 then parts[0]
    else Join(parts[..|parts| - 1]) + "\n" + parts[|parts| - 1]
  }

  function StreamOf(lines: seq<string>): string {
    Latin1(Prelude() + ShowLines(lines) + EndText())
  }

  method PdfTextStream(lines: seq<string>) returns (stream: string)
    ensures stream == StreamOf(lines)
  {
    hide Escape, Latin1, Join, Prelude, ShowMark;
    var commands := ["BT"] + ["/F1 9 Tf"] + ["42 756 Td"] + ["12 TL"];
    JoinPrelude();
    for i := 0 to |lines|
      invariant commands != [] && Join(commands) + "\n" == Prelude() + ShowLines(lines[..i])
    {
      assert lines[..i + 1][..i] == lines[..i];
      var show := "(" + Escape(lines[i]) + ") Tj";
      JoinLine(commands, Escape(lines[i]));
      commands := commands + [show];
      commands := commands + ["T*"];
    }
    assert lines[..|lines|] == lines;
    JoinSnoc(commands, "ET");
    commands := commands + ["ET"];
    stream := Latin1(Join(commands));
  }

  lemma JoinLine(commands: seq<string>, text: string)
    requires commands != []
    ensures Join(commands + ["(" + text + ") Tj"] + ["T*"]) + "\n" == Join(commands) + "\n"
        + ("(" + text + ")" + ShowMark())
  {
    hide Join;
    var show := "(" + text + ") Tj";
    JoinSnoc(commands, show);
    JoinSnoc(commands + [show], "T*");
    assert show + "\n" + "T*" + "\n" == "(" + text + ")" + ShowMark();
    assert Join(commands) + "\n" + show + "\n" + "T*" + "\n" == Join(commands) + "\n" + (show + "\n" + "T*" + "\n");
  }

  lemma JoinSnoc(parts: seq<string>, part: string)
    requires parts != []
    ensures Join(parts + [part]) == Join(parts) + "\n" + part
  {
    assert (parts + [part])[..|parts|] == parts;
  }

  lemma JoinPrelude()
    ensures Join(["BT"] + ["/F1 9 Tf"] + ["42 756 Td"] + ["12 TL"]) + "\n" == Prelude()
  {
    JoinSnoc(["BT"] + ["/F1 9 Tf"] + ["42 756 Td"], "12 TL");
    JoinSnoc(["BT"] + ["/F1 9 Tf"], "42 756 Td");
    JoinSnoc(["BT"], "/F1 9 Tf");
  }

  // ----- Reading literal strings -----

  /** What a backslash and the character after it stand for. */
  function Unescaped(c: char): string {
    if c == 'n' then "\n" else if c == 'r' then "\r" else if c == 't' then "\t"
    else if c == 'b' then "\U{8}" else if c == 'f' then "\U{C}"
    else if c == '\n' then "" else [c]
  }

  predicate IsOctal(c: char) {
    '0' <= c <= '7'
  }

  /** The value of a run of up to three octal digits, high bits dropped. */
  function Octal(s: string, n: nat): (r: (nat, nat))
    requires n <= 3 && n <= |s|
    ensures r.0 < 256 && r.1 <= n
  {
    if n > 0 && IsOctal(s[0]) then
      if n > 1 && IsOctal(s[1]) then
        if n > 2 && IsOctal(s[2]) then ((64 * DigitValue(s[0]) + 8 * DigitValue(s[1]) + DigitValue(s[2])) % 256, 3)
        else (8 * DigitValue(s[0]) + DigitValue(s[1]), 2)
      else (DigitValue(s[0]), 1)
    else (0, 0)
  }

  /**
   * The content of a literal string and what follows its closing parenthesis. The text starts
   * after the opening parenthesis; depth counts the balanced ones still open inside.
   */
  function ReadLiteral(s: string, depth: nat): Option<(string, string)> {
    if s == "" then None
    else if s[0] == ')' then
      if depth == 0 then Some(("", s[1..])) else Before(")", ReadLiteral(s[1..], depth - 1))
    else if s[0] == '(' then Before("(", ReadLiteral(s[1..], depth + 1))
    else if s[0] == '\\' then
      if |s| == 1 then None
      else if IsOctal(s[1]) then
        var (value, digits) := Octal(s[1..], if |s| < 4 then |s| - 1 else 3);
        if digits == 0 then None else Before([value as char], ReadLiteral(s[1 + digits..], depth))
      else Before(Unescaped(s[1]), ReadLiteral(s[2..], depth))
    else if s[0] == '\r' then
      Before("\n", ReadLiteral(if |s| > 1 && s[1] == '\n' then s[2..] else s[1..], depth))
    else Before([s[0]], ReadLiteral(s[1..], depth))
  }

  function Before(text: string, read: Option<(string, string)>): Option<(string, string)> {
    match read
    case None => None
    case Some((content, rest)) => Some((text + content, rest))
  }

  function EscapedChar(c: char): string {
    if c == '\r' then "" else if c == '\\' || c == '(' || c == ')' then ['\\', c] else [c]
  }

  lemma {:induction false} ReplaceConcat(a: string, b: string, c: char, text: string)
    ensures ReplaceAll(a + b, c, text) == ReplaceAll(a, c, text) + ReplaceAll(b, c, text)
  {
    if a == "" {
      assert a + b == b;
    } else {
      assert (a + b)[1..] == a[1..] + b;
      ReplaceConcat(a[1..], b, c, text);
    }
  }

  lemma ReplaceOne(a: char, c: char, text: string)
    ensures ReplaceAll([a], c, text) == if a == c then text else [a]
  {
    assert [a][1..] == "";
  }

  lemma ReplaceTwo(a: char, b: char, c: char, text: string)
    requires a != c && b != c
    ensures ReplaceAll([a, b], c, text) == [a, b]
  {
    assert [a, b][1..] == [b];
    ReplaceOne(b, c, text);
  }

  lemma EscapeOne(c: char)
    ensures Escape([c]) == EscapedChar(c)
  {
    ReplaceOne(c, '\\', "\\\\");
    ReplaceOne(c, '(', "\\(");
    ReplaceOne(c, ')', "\\)");
    ReplaceOne(c, '\r', "");
    if c == '\\' || c == '(' || c == ')' {
      assert "\\\\" == ['\\', '\\'] && "\\(" == ['\\', '('] && "\\)" == ['\\', ')'];
      if c != '(' { ReplaceTwo('\\', c, '(', "\\("); }
      if c != ')' { ReplaceTwo('\\', c, ')', "\\)"); }
      ReplaceTwo('\\', c, '\r', "");
    }
  }

  /** The four replacements in a row treat every character on its own. */
  lemma {:induction false} EscapeConcat(a: string, b: string)
    ensures Escape(a + b) == Escape(a) + Escape(b)
  {
    var a1, b1 := ReplaceAll(a, '\\', "\\\\"), ReplaceAll(b, '\\', "\\\\");
    ReplaceConcat(a, b, '\\', "\\\\");
    var a2, b2 := ReplaceAll(a1, '(', "\\("), ReplaceAll(b1, '(', "\\(");
    ReplaceConcat(a1, b1, '(', "\\(");
    var a3, b3 := ReplaceAll(a2, ')', "\\)"), ReplaceAll(b2, ')', "\\)");
    ReplaceConcat(a2, b2, ')', "\\)");
    ReplaceConcat(a3, b3, '\r', "");
  }

  lemma Latin1Concat(a: string, b: string)
    ensures Latin1(a + b) == Latin1(a) + Latin1(b)
  {}

  /** A written line is read back, without its carriage returns, and the reader stops at its end. */
  lemma {:induction false} ReadLiteralOf(line: string, rest: string)
    ensures ReadLiteral(Latin1(Escape(line)) + ")" + rest, 0) == Some((Latin1(DropReturns(line)), rest))
  {
    hide Escape, ReadLiteral, Latin1, EscapedChar, DropReturns;
    if line == "" {
      ReadEmpty(rest);
    } else {
      var c, later := line[0], line[1..];
      ReadLiteralOf(later, rest);
      var more := Latin1(Escape(later)) + ")" + rest;
      assert line == [c] + later;
      EscapeConcat([c], later);
      EscapeOne(c);
      Latin1Concat(EscapedChar(c), Escape(later));
      assert Latin1(Escape(line)) + ")" + rest == Latin1(EscapedChar(c)) + more;
      DropFirst(line);
      if c == '\r' {
        assert Latin1(EscapedChar(c)) + more == more;
      } else {
        ReadOneOf(c, more);
        Latin1Concat([c], DropReturns(later));
      }
    }
  }

  lemma DropFirst(line: string)
    requires line != ""
    ensures line[0] == '\r' ==> DropReturns(line) == DropReturns(line[1..]) && EscapedChar(line[0]) == ""
    ensures line[0] != '\r' ==> DropReturns(line) == [line[0]] + DropReturns(line[1..])
  {}

  lemma ReadEmpty(rest: string)
    ensures ReadLiteral(Latin1(Escape("")) + ")" + rest, 0) == Some((Latin1(DropReturns("")), rest))
  {
    var text := Latin1(Escape("")) + ")" + rest;
    assert text[0] == ')' && text[1..] == rest;
  }

  lemma ReadOneOf(c: char, more: string)
    requires c != '\r'
    ensures ReadLiteral(Latin1(EscapedChar(c)) + more, 0) == Before(Latin1([c]), ReadLiteral(more, 0))
  {
    var text := Latin1(EscapedChar(c)) + more;
    if c == '\\' || c == '(' || c == ')' {
      assert text[0] == '\\' && text[1] == c && text[2..] == more;
      assert Latin1([c]) == [c];
    } else {
      assert text[0] == Latin1([c])[0] && text[1..] == more;
      assert Latin1([c]) == [text[0]];
    }
  }

  /** The lines shown by a content stream, up to its end of text. */
  function ReadLines(s: string): Option<seq<string>>
    decreases |s|
  {
    if s == EndText() then Some([])
    else if !StartsWith(s, "(") then None
    else
      match ReadLiteral(s[1..], 0)
      case None => None
      case Some((line, rest)) =>
        if !StartsWith(rest, ShowMark()) || |rest| >= |s| then None
        else
          match ReadLines(rest[|ShowMark()|..])
          case None => None
          case Some(lines) => Some([line] + lines)
  }

  function ReadStream(s: string): Option<seq<string>> {
    if StartsWith(s, Prelude()) then ReadLines(s[|Prelude()|..]) else None
  }

  /** What a reader can see of a line. */
  function Visible(lines: seq<string>): (r: seq<string>)
    ensures |r| == |lines|
  {
    seq(|lines|, k requires 0 <= k < |lines| => Latin1(DropReturns(lines[k])))
  }

  lemma {:induction false} ShowLinesFirst(lines: seq<string>)
    requires lines != []
    ensures ShowLines(lines) == "(" + Escape(lines[0]) + ")" + ShowMark() + ShowLines(lines[1..])
  {
    hide Escape, ShowMark;
    if |lines| == 1 {
      assert lines[..0] == [] && lines[1..] == [];
    } else {
      var init := lines[..|lines| - 1];
      ShowLinesFirst(init);
      assert lines[1..][..|lines| - 2] == init[1..];
    }
  }

  lemma ReadFirstLine(line: string, next: string)
    requires ReadLines(next).Some?
    ensures ReadLines("(" + (Latin1(Escape(line)) + ")" + (ShowMark() + next)))
         == Some([Latin1(DropReturns(line))] + ReadLines(next).value)
  {
    hide Escape, ReadLiteral, DropReturns, Latin1;
    var after := Latin1(Escape(line)) + ")" + (ShowMark() + next);
    var s := "(" + after;
    assert s[0] == '(' && s[1..] == after;
    assert s != EndText();
    ReadLiteralOf(line, ShowMark() + next);
    assert (ShowMark() + next)[|ShowMark()|..] == next;
  }

  lemma {:induction false} ReadLinesOf(lines: seq<string>)
    ensures ReadLines(Latin1(ShowLines(lines) + EndText())) == Some(Visible(lines))
    decreases |lines|
  {
    hide Escape, ReadLiteral, DropReturns, ReadLines, ShowLines, Latin1, ShowMark, EndText;
    if lines == [] {
      ReadNoLines();
    } else {
      ReadLinesOf(lines[1..]);
      ShowLinesFirst(lines);
      var line, next := Escape(lines[0]), ShowLines(lines[1..]) + EndText();
      var tail := ")" + (ShowMark() + next);
      assert ShowLines(lines) + EndText() == "(" + (line + tail);
      Latin1Concat("(", line + tail);
      Latin1Concat(line, tail);
      Latin1Concat(")", ShowMark() + next);
      Latin1Concat(ShowMark(), next);
      MarksAreLatin1();
      assert Latin1(line + tail) == Latin1(line) + ")" + (ShowMark() + Latin1(next));
      ReadFirstLine(lines[0], Latin1(next));
      assert [Latin1(DropReturns(lines[0]))] + Visible(lines[1..]) == Visible(lines);
    }
  }

  lemma MarksAreLatin1()
    ensures Latin1("(") == "(" && Latin1(")") == ")"
    ensures Latin1(ShowMark()) == ShowMark() && Latin1(Prelude()) == Prelude()
    ensures Latin1(EndText()) == EndText()
  {
    hide Latin1;
  }

  lemma ReadNoLines()
    ensures ReadLines(Latin1(ShowLines([]) + EndText())) == Some(Visible([]))
  {
    assert ShowLines([]) + EndText() == EndText();
    assert Latin1(EndText()) == EndText();
  }

  /** The text stream of a page shows exactly its lines. */
  lemma ReadStreamOf(lines: seq<string>)
    ensures ReadStream(StreamOf(lines)) == Some(Visible(lines))
  {
    hide ShowLines, ReadLines, Latin1, Prelude, EndText;
    assert Prelude() + ShowLines(lines) + EndText() == Prelude() + (ShowLines(lines) + EndText());
    Latin1Concat(Prelude(), ShowLines(lines) + EndText());
    MarksAreLatin1();
    ReadLinesOf(lines);
  }

  // ----- Pages and objects -----

  /** The lines in pages of 54; an empty report still has one page. */
  function PagesOf(lines: seq<string>): (pages: seq<seq<string>>)
    ensures pages != []
    ensures forall p :: p in pages ==> |p| <= LinesPerPage
    ensures forall k :: 0 <= k < |pages| - 1 ==> |pages[k]| == LinesPerPage
  {
    if |lines| <= LinesPerPage then [lines] else [lines[..LinesPerPage]] + PagesOf(lines[LinesPerPage..])
  }

  function Flatten(pages: seq<seq<string>>): seq<string> {
    if pages == [] then [] else pages[0] + Flatten(pages[1..])
  }

  lemma {:induction false} PagesHoldTheLines(lines: seq<string>)
    ensures Flatten(PagesOf(lines)) == lines
  {
    var pages := PagesOf(lines);
    if |lines| <= LinesPerPage {
      assert pages[1..] == [];
    } else {
      PagesHoldTheLines(lines[LinesPerPage..]);
      assert pages[1..] == PagesOf(lines[LinesPerPage..]);
    }
  }

  function Catalog(): string { "<< /Type /Catalog /Pages 2 0 R >>" }
  function KidsMark(): string { "<< /Type /Pages /Kids [" }
  function CountMark(): string { "] /Count " }
  function Font(): string { "<< /Type /Font /Subtype /Type1 /BaseFont /Helvetica >>" }
  function PageMark(): string {
    "<< /Type /Page /Parent 2 0 R /MediaBox [0 0 612 792] /Resources << /Font << /F1 3 0 R >> >> /Contents "
  }
  function RefMark(): string { " 0 R" }
  function LengthMark(): string { "<< /Length " }
  function StreamMark(): string { " >>\nstream\n" }
  function EndStreamMark(): string { "\nendstream" }
  function CloseMark(): string { " >>" }

  /** References to the page objects from the i-th page on: their numbers are 4, 6, 8, ... */
  function KidsFrom(i: nat, count: nat): string
    requires i < count
    decreases count - i
  {
    Dec(4 + 2 * i) + RefMark() + if i + 1 < count then " " + KidsFrom(i + 1, count) else ""
  }

  function PagesObject(count: nat): string
    requires count > 0
  {
    KidsMark() + KidsFrom(0, count) + CountMark() + Dec(count) + CloseMark()
  }

  function PageObject(contents: nat): string {
    PageMark() + Dec(contents) + RefMark() + CloseMark()
  }

  function ContentObject(stream: string): string {
    LengthMark() + Dec(|stream|) + StreamMark() + stream + EndStreamMark()
  }

  /** The objects of the first k pages: a page and its content, in turn. */
  function PageObjects(pages: seq<seq<string>>, k: nat): (r: seq<string>)
    requires k <= |pages|
    ensures |r| == 2 * k
  {
    hide PagePair;
    if k == 0 then []
    else PageObjects(pages, k - 1) + PagePair(pages[k - 1], 2 + 2 * k)
  }

  /** A page object of number n, and its content object, which gets the next number. */
  function PagePair(page: seq<string>, n: nat): (r: seq<string>)
    ensures |r| == 2
  {
    hide PageObject, ContentObject, StreamOf;
    [PageObject(n + 1), ContentObject(StreamOf(page))]
  }

  function ObjectsOf(pages: seq<seq<string>>): seq<string>
    requires pages != []
  {
    hide PageObjects, PagesObject, Catalog, Font, PagesOf;
    [Catalog(), PagesObject(|pages|), Font()] + PageObjects(pages, |pages|)
  }

  method WriteBuiltinPdf(lines: seq<string>) returns (file: string)
    ensures file == FileOf(ObjectsOf(PagesOf(lines)))
  {
    hide FileOf, StreamOf, PagesOf, PagesObject, Catalog, Font, PageObject, ContentObject;
    var pages := PagesOf(lines);
    var objects := [Catalog(), PagesObject(|pages|), Font()];
    ghost var first := objects;
    for index := 0 to |pages|
      invariant objects == first + PageObjects(pages, index)
    {
      var pageObjectId := 4 + index * 2;
      var contentObjectId := pageObjectId + 1;
      var stream := PdfTextStream(pages[index]);
      objects := objects + [PageObject(contentObjectId)];
      objects := objects + [ContentObject(stream)];
    }
    file := PdfPayload(objects);
  }

  // ----- Reading a whole document -----

  /** A number followed by a reference mark, and what comes after. */
  function ReadRef(s: string): Option<(nat, string)> {
    var digits := DigitPrefix(s);
    if digits == "" || !StartsWith(s[|digits|..], RefMark()) then None
    else Some((Undec(digits), s[|digits| + |RefMark()|..]))
  }

  /** The references up to the closing bracket. */
  function ReadRefs(s: string): Option<seq<nat>>
    decreases |s|
  {
    match ReadRef(s)
    case None => None
    case Some((n, rest)) =>
      if StartsWith(rest, "]") then Some([n])
      else if !StartsWith(rest, " ") || |rest| > |s| then None
      else
        match ReadRefs(rest[1..])
        case None => None
        case Some(more) => Some([n] + more)
  }

  function ReadKids(text: string): Option<seq<nat>> {
    if StartsWith(text, KidsMark()) then ReadRefs(text[|KidsMark()|..]) else None
  }

  function ReadContents(text: string): Option<nat> {
    if !StartsWith(text, PageMark()) then None
    else
      match ReadRef(text[|PageMark()|..])
      case None => None
      case Some((n, _)) => Some(n)
  }

  /** The stream of a content object: as many bytes as its dictionary says. */
  function ReadContent(text: string): Option<string> {
    if !StartsWith(text, LengthMark()) then None
    else
      var counted := text[|LengthMark()|..];
      var digits := DigitPrefix(counted);
      var after := counted[|digits|..];
      if digits == "" || !StartsWith(after, StreamMark()) then None
      else
        var stream := after[|StreamMark()|..];
        var length := Undec(digits);
        if length <= |stream| && StartsWith(stream[length..], EndStreamMark()) then Some(stream[..length]) else None
  }

  /** The lines of the page with the given object number. */
  function ReadPage(file: string, n: nat): Option<seq<string>> {
    match ReadObject(file, n)
    case None => None
    case Some(page) =>
      match ReadContents(page)
      case None => None
      case Some(contents) =>
        match ReadObject(file, contents)
        case None => None
        case Some(content) =>
          match ReadContent(content)
          case None => None
          case Some(stream) => ReadStream(stream)
  }

  function ReadPages(file: string, kids: seq<nat>): Option<seq<string>> {
    hide ReadPage;
    if kids == [] then Some([])
    else
      match (ReadPage(file, kids[0]), ReadPages(file, kids[1..]))
      case (Some(first), Some(rest)) => Some(first + rest)
      case _ => None
  }

  /** The lines of a document, found through the catalog and the page tree. */
  function ReadDocument(file: string): Option<seq<string>> {
    hide ReadObject, ReadKids, ReadPages, Catalog;
    match ReadObject(file, 1)
    case None => None
    case Some(catalog) =>
      if !StartsWith(catalog, Catalog()) then None
      else
        match ReadObject(file, 2)
        case None => None
        case Some(tree) =>
          match ReadKids(tree)
          case None => None
          case Some(kids) => ReadPages(file, kids)
  }

  /** The page objects carry the numbers 4, 6, 8, ... */
  function KidNumbers(i: nat, count: nat): seq<nat>
    requires i <= count
    decreases count - i
  {
    if i == count then [] else [4 + 2 * i] + KidNumbers(i + 1, count)
  }

  lemma ReadRefOf(n: nat, rest: string)
    ensures ReadRef(Dec(n) + RefMark() + rest) == Some((n, rest))
  {
    hide Dec, Undec, DigitPrefix;
    DecRoundTrip(n);
    assert Dec(n) + RefMark() + rest == Dec(n) + (RefMark() + rest);
    DigitPrefixOf(Dec(n), RefMark() + rest);
    assert (RefMark() + rest)[|RefMark()|..] == rest;
  }

  lemma {:induction false} ReadRefsOf(i: nat, count: nat, rest: string)
    requires i < count
    ensures ReadRefs(KidsFrom(i, count) + "]" + rest) == Some(KidNumbers(i, count))
    decreases count - i
  {
    hide Dec, RefMark, ReadRef;
    var s := KidsFrom(i, count) + "]" + rest;
    if i + 1 == count {
      assert s == Dec(4 + 2 * i) + RefMark() + ("]" + rest);
      ReadRefOf(4 + 2 * i, "]" + rest);
      assert KidNumbers(i, count) == [4 + 2 * i];
    } else {
      var more := KidsFrom(i + 1, count) + "]" + rest;
      assert s == Dec(4 + 2 * i) + RefMark() + (" " + more);
      ReadRefOf(4 + 2 * i, " " + more);
      ReadRefsOf(i + 1, count, rest);
      assert (" " + more)[0] == ' ' && (" " + more)[1..] == more;
      assert !StartsWith(" " + more, "]");
    }
  }

  lemma ReadKidsOf(count: nat, rest: string)
    requires count > 0
    ensures ReadKids(PagesObject(count) + rest) == Some(KidNumbers(0, count))
  {
    hide Dec, KidsMark, CloseMark, KidsFrom, ReadRefs, KidNumbers;
    var text := PagesObject(count) + rest;
    assert CountMark()[0] == ']';
    var tail := CountMark()[1..] + Dec(count) + CloseMark() + rest;
    assert CountMark() == "]" + CountMark()[1..];
    assert text == KidsMark() + (KidsFrom(0, count) + "]" + tail);
    assert text[|KidsMark()|..] == KidsFrom(0, count) + "]" + tail;
    ReadRefsOf(0, count, tail);
  }

  lemma ReadContentsOf(contents: nat, rest: string)
    ensures ReadContents(PageObject(contents) + rest) == Some(contents)
  {
    hide Dec, PageMark, RefMark, CloseMark, ReadRef;
    var text, tail := PageObject(contents) + rest, CloseMark() + rest;
    assert text == PageMark() + (Dec(contents) + RefMark() + tail);
    assert text[|PageMark()|..] == Dec(contents) + RefMark() + tail;
    ReadRefOf(contents, tail);
  }

  lemma NoDigitAhead(tail: string)
    ensures StreamMark() + tail != "" && !IsDigit((StreamMark() + tail)[0])
  {
    assert (StreamMark() + tail)[0] == ' ';
  }

  lemma ReadContentOf(stream: string, rest: string)
    ensures ReadContent(ContentObject(stream) + rest) == Some(stream)
  {
    hide Dec, Undec, LengthMark, EndStreamMark, StreamMark, DigitPrefix;
    var tail := stream + EndStreamMark() + rest;
    var text := ContentObject(stream) + rest;
    var digits := Dec(|stream|);
    assert text == LengthMark() + (digits + (StreamMark() + tail));
    assert text[|LengthMark()|..] == digits + (StreamMark() + tail);
    NoDigitAhead(tail);
    DigitPrefixOf(digits, StreamMark() + tail);
    DecRoundTrip(|stream|);
    assert (digits + (StreamMark() + tail))[|digits|..] == StreamMark() + tail;
    assert (StreamMark() + tail)[|StreamMark()|..] == tail;
    assert tail[..|stream|] == stream && tail[|stream|..] == EndStreamMark() + rest;
  }

  lemma {:induction false} PageObjectsAt(pages: seq<seq<string>>, i: nat, k: nat)
    requires i < k <= |pages|
    ensures PageObjects(pages, k)[2 * i] == PageObject(5 + 2 * i)
    ensures PageObjects(pages, k)[2 * i + 1] == ContentObject(StreamOf(pages[i]))
    decreases k
  {
    hide PageObject, ContentObject, StreamOf;
    if i + 1 < k {
      PageObjectsAt(pages, i, k - 1);
    }
  }

  lemma SplitAt(s: string, p: string)
    requires p <= s
    ensures s == p + s[|p|..]
  {}

  lemma ReadPageOf(pages: seq<seq<string>>, i: nat)
    requires pages != [] && Fits(ObjectsOf(pages)) && i < |pages|
    ensures ReadPage(FileOf(ObjectsOf(pages)), 4 + 2 * i) == Some(Visible(pages[i]))
  {
    hide Fits, FileOf, PageObjects, PagesObject, Catalog, Font, PageObject, ContentObject, StreamOf,
         ReadObject, ReadContents, ReadContent, ReadStream;
    var objects := ObjectsOf(pages);
    var file := FileOf(objects);
    PageObjectsAt(pages, i, |pages|);
    var stream := StreamOf(pages[i]);
    assert objects[4 + 2 * i - 1] == PageObject(5 + 2 * i);
    assert objects[5 + 2 * i - 1] == ContentObject(stream);
    ReadObjectOf(objects, 4 + 2 * i);
    var page := ReadObject(file, 4 + 2 * i).value;
    SplitAt(page, PageObject(5 + 2 * i));
    ReadContentsOf(5 + 2 * i, page[|PageObject(5 + 2 * i)|..]);
    ReadObjectOf(objects, 5 + 2 * i);
    var content := ReadObject(file, 5 + 2 * i).value;
    SplitAt(content, ContentObject(stream));
    ReadContentOf(stream, content[|ContentObject(stream)|..]);
    ReadStreamOf(pages[i]);
  }

  lemma {:induction false} ReadPagesOf(pages: seq<seq<string>>, i: nat)
    requires pages != [] && Fits(ObjectsOf(pages)) && i <= |pages|
    ensures ReadPages(FileOf(ObjectsOf(pages)), KidNumbers(i, |pages|)) == Some(Visible(Flatten(pages[i..])))
    decreases |pages| - i
  {
    hide Fits, FileOf, ObjectsOf, ReadPage, Visible;
    if i < |pages| {
      ReadPageOf(pages, i);
      ReadPagesOf(pages, i + 1);
      assert KidNumbers(i, |pages|)[1..] == KidNumbers(i + 1, |pages|);
      assert pages[i..][1..] == pages[i + 1..];
      VisibleConcat(pages[i], Flatten(pages[i + 1..]));
    } else {
      assert Visible([]) == [];
    }
  }

  lemma VisibleConcat(a: seq<string>, b: seq<string>)
    ensures Visible(a + b) == Visible(a) + Visible(b)
  {}

  /**
   * The document round trip: a reader that goes through startxref, the table, the catalog, the
   * page tree and the content streams finds all lines of the report, in order.
   */
  lemma ReadDocumentOf(lines: seq<string>)
    requires Fits(ObjectsOf(PagesOf(lines)))
    ensures ReadDocument(FileOf(ObjectsOf(PagesOf(lines)))) == Some(Visible(lines))
  {
    hide Fits, FileOf, PageObjects, PagesObject, Catalog, Font, ReadObject, ReadKids, ReadPages, PagesOf;
    var pages := PagesOf(lines);
    var objects := ObjectsOf(pages);
    var file := FileOf(objects);
    ReadObjectOf(objects, 1);
    assert objects[0] == Catalog();
    assert Catalog() <= Catalog() + EndMark() <= ReadObject(file, 1).value;
    ReadObjectOf(objects, 2);
    var tree := ReadObject(file, 2).value;
    assert objects[1] == PagesObject(|pages|);
    assert PagesObject(|pages|) <= tree;
    SplitAt(tree, PagesObject(|pages|));
    ReadKidsOf(|pages|, tree[|PagesObject(|pages|)|..]);
    ReadPagesOf(pages, 0);
    assert pages[0..] == pages;
    PagesHoldTheLines(lines);
  }
}
