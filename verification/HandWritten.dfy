/**
 Inventories as people write them, against the reader `parseProductionInventory`: bare values, single quotes,
 also over several lines, and double quotes, with spaces, comments and blank lines anywhere, and any of the
 three line ends.

 An `Item` is what was meant, and `ItemLines` how it is written. `ReadsExactly` says what the reader makes of
 a whole file of them; it is proved from the text alone, and the lemmas after it say what is refused.
 */
module HandWritten {
  import opened Dotenv
  import opened Printer
  import opened Text
  import opened Wrappers

  // ---- What is written ----

  /** Space, and after it a comment or nothing. */
  datatype Remark = Remark(space: string, comment: Option<string>)

  /** A value in single quotes is written in parts, a line each. */
  datatype Form = Bare(text: string) | Single(parts: seq<string>) | Double(text: string)

  datatype Item =
    | Blank(remark: Remark)
    | Assignment(indent: string, name: string, gap: string, space: string, form: Form, remark: Remark)

  /** Every space but the characters that end a line. */
  predicate IsGap(c: char) {
    || c == '\t' || c == '\U{B}' || c == '\U{C}' || c == ' ' || c == '\U{A0}' || c == '\U{1680}'
    || '\U{2000}' <= c <= '\U{200A}' || c == '\U{2028}' || c == '\U{2029}' || c == '\U{202F}' || c == '\U{205F}'
    || c == '\U{3000}' || c == '\U{FEFF}'
  }

  predicate IsGaps(s: string) {
    forall c <- s :: IsGap(c)
  }

  /** Text that stays on its line. */
  predicate OnLine(s: string) {
    forall c <- s :: c != '\n' && c != '\r' && c != '\0'
  }

  predicate IsName(name: string) {
    && name != "" && ('A' <= name[0] <= 'Z' || 'a' <= name[0] <= 'z' || name[0] == '_')
    && forall c <- name :: 'A' <= c <= 'Z' || 'a' <= c <= 'z' || c == '_' || '0' <= c <= '9'
  }

  predicate IsRemark(r: Remark) {
    IsGaps(r.space) && (r.comment.Some? ==> OnLine(r.comment.value))
  }

  /** A value that needs no quotes. */
  predicate IsBare(text: string) {
    && OnLine(text) && '#' !in text
    && (text != "" ==> !IsGap(text[0]) && !IsGap(text[|text| - 1]) && text[0] != '"' && text[0] != '\'')
  }

  predicate IsForm(form: Form) {
    match form
    case Bare(text) => IsBare(text)
    case Single(parts) => parts != [] && forall part <- parts :: OnLine(part) && '\'' !in part
    case Double(text) => forall c <- text :: c >= ' ' || c == '\n' || c == '\r' || c == '\t'
  }

  predicate IsItem(item: Item) {
    && IsRemark(item.remark)
    && (item.Assignment? ==>
          && IsGaps(item.indent) && IsName(item.name) && IsGaps(item.gap) && IsGaps(item.space)
          && IsForm(item.form))
  }

  function RemarkText(r: Remark): string {
    r.space + match r.comment case None => "" case Some(text) => "#" + text
  }

  function Start(item: Item): string
    requires item.Assignment?
  {
    item.indent + item.name + item.gap + "=" + item.space
  }

  /** The lines an item is written on. */
  function ItemLines(item: Item): (lines: seq<string>)
    requires IsItem(item)
    ensures lines != []
  {
    var remark := RemarkText(item.remark);
    match item
    case Blank(_) => [remark]
    case Assignment(_, _, _, _, Bare(text), _) => [Start(item) + (text + remark)]
    case Assignment(_, _, _, _, Double(text), _) => [Start(item) + ("\"" + Escape(text) + "\"" + remark)]
    case Assignment(_, _, _, _, Single(parts), _) =>
      if |parts| == 1 then [Start(item) + ("'" + parts[0] + "'" + remark)]
      else [Start(item) + ("'" + parts[0])] + Between(parts[1..], remark)
  }

  /** The lines a value in single quotes goes on with, up to its closing quote. */
  function Between(parts: seq<string>, remark: string): seq<string>
    requires parts != []
  {
    if |parts| == 1 then [parts[0] + "'" + remark] else [parts[0]] + Between(parts[1..], remark)
  }

  function Lines(items: seq<Item>): seq<string>
    requires forall item <- items :: IsItem(item)
  {
    if items == [] then [] else ItemLines(items[0]) + Lines(items[1..])
  }

  /** What a form means. The first line of a quoted value is trimmed before its end is looked for. */
  function Meaning(form: Form): string
    requires form.Single? ==> form.parts != []
  {
    match form
    case Bare(text) => text
    case Double(text) => text
    case Single(parts) => if |parts| == 1 then parts[0] else Join([TrimEnd(parts[0])] + parts[1..])
  }

  /** The lines with one of the three line ends between them. */
  function JoinWith(lines: seq<string>, end: string): string {
    if lines == [] then ""
    else if |lines| == 1 then lines[0]
    else lines[0] + end + JoinWith(lines[1..], end)
  }

  predicate IsLineEnd(end: string) {
    end == "\n" || end == "\r\n" || end == "\r"
  }

  // ---- Space ----

  lemma GapsAreSpaces(c: char)
    ensures IsSpace(c) <==> IsGap(c) || c == '\n' || c == '\r'
  {}

  lemma {:induction false} TrimStartGaps(gaps: string, s: string)
    requires IsGaps(gaps)
    ensures TrimStart(gaps + s) == TrimStart(s)
  {
    if gaps == "" {
      assert gaps + s == s;
    } else {
      assert gaps == [gaps[0]] + gaps[1..] && (gaps + s)[1..] == gaps[1..] + s;
      GapsAreSpaces(gaps[0]);
      TrimStartGaps(gaps[1..], s);
    }
  }

  lemma {:induction false} TrimEndGaps(gaps: string)
    requires IsGaps(gaps)
    ensures TrimEnd(gaps) == ""
  {
    if gaps != "" {
      assert gaps == gaps[..|gaps| - 1] + [gaps[|gaps| - 1]];
      GapsAreSpaces(gaps[|gaps| - 1]);
      TrimEndGaps(gaps[..|gaps| - 1]);
    }
  }

  /** Text between gaps is what trimming leaves. */
  lemma TrimBetween(before: string, s: string, after: string)
    requires IsGaps(before) && IsGaps(after) && s != "" && !IsSpace(s[0]) && !IsSpace(s[|s| - 1])
    ensures Trim(before + s + after) == s
  {
    assert before + s + after == before + (s + after);
    TrimStartGaps(before, s + after);
    TrimKeeps(s, after);
    TrimEndGaps(after);
  }

  lemma TrimGaps(gaps: string)
    requires IsGaps(gaps)
    ensures Trim(gaps) == ""
  {
    TrimStartGaps(gaps, "");
    assert gaps + "" == gaps;
  }

  lemma TrimAfterGaps(gaps: string, s: string)
    requires IsGaps(gaps)
    ensures Trim(gaps + s) == Trim(s)
  {
    TrimStartGaps(gaps, s);
  }

  /** What a remark leaves at the end of a line that is trimmed. */
  lemma TrimEndRemark(r: Remark)
    requires IsRemark(r)
    ensures TrimEnd(RemarkText(r)) ==
      match r.comment case None => "" case Some(text) => r.space + "#" + TrimEnd(text)
  {
    match r.comment
    case None =>
      assert RemarkText(r) == r.space;
      TrimEndGaps(r.space);
    case Some(text) =>
      assert RemarkText(r) == r.space + "#" + text;
      TrimEndAppend(r.space + "#", text);
  }

  lemma RemarkIsHarmless(r: Remark)
    requires IsRemark(r)
    ensures IsHarmless(RemarkText(r)) && IsBlankOrComment(RemarkText(r))
  {
    match r.comment
    case None =>
      assert RemarkText(r) == r.space;
      TrimGaps(r.space);
    case Some(text) =>
      TrimAfterGaps(r.space, "#" + text);
      TrimKeepsStart("#" + text);
  }

  // ---- One item ----

  lemma NamesAreIdentifiers(name: string)
    ensures IsName(name) <==> IsIdentifier(name)
  {}

  lemma GapsHave(gaps: string)
    requires IsGaps(gaps)
    ensures '=' !in gaps && '#' !in gaps
  {}

  lemma StartIsAssignment(indent: string, name: string, gap: string, after: string)
    requires IsGaps(indent) && IsName(name) && IsGaps(gap)
    ensures !IsBlankOrComment(indent + name + gap + "=" + after)
    ensures NameOn(indent + name + gap + "=" + after) == Ok((name, Trim(after)))
  {
    hide Trim, IsGap, IsName;
    var line, before := indent + name + gap + "=" + after, indent + name + gap;
    NamesAreIdentifiers(name);
    IdentifierShape(name);
    GapsHave(indent);
    GapsHave(gap);
    FirstIs(before, '=', after);
    assert line[..|before|] == before && line[|before| + 1..] == after;
    IdentifierEnds(name);
    TrimBetween(indent, name, gap);
    TrimStartsWithName(indent, name, gap + "=" + after);
    assert indent + (name + (gap + "=" + after)) == line;
  }

  lemma IdentifierEnds(name: string)
    requires IsIdentifier(name)
    ensures !IsSpace(name[0]) && !IsSpace(name[|name| - 1]) && name[0] != '#'
  {
    assert name[|name| - 1] in name;
  }

  lemma TrimStartsWithName(indent: string, name: string, after: string)
    requires IsGaps(indent) && name != "" && !IsSpace(name[0])
    ensures Trim(indent + (name + after)) != "" && Trim(indent + (name + after))[0] == name[0]
  {
    TrimAfterGaps(indent, name + after);
    TrimKeepsStart(name + after);
  }

  lemma BareValue(lines: seq<string>, line: nat, space: string, text: string, r: Remark)
    requires line < |lines| && IsGaps(space) && IsBare(text) && IsRemark(r)
    ensures ValueOn(lines, line, Trim(space + (text + RemarkText(r)))) == Ok((text, line))
  {
    hide IsGap, Trim;
    TrimAfterGaps(space, text + RemarkText(r));
    TrimEndRemark(r);
    if text == "" {
      assert text + RemarkText(r) == RemarkText(r);
      EmptyValue(r);
    } else {
      BareEnds(text);
      TrimKeeps(text, RemarkText(r));
      TextBeforeComment(text, r);
    }
  }

  /** Without a value there is at most a comment. */
  lemma EmptyValue(r: Remark)
    requires IsRemark(r)
    ensures !IsQuoted(Trim(RemarkText(r))) && UnquotedValue(Trim(RemarkText(r))) == ""
  {
    match r.comment
    case None =>
      assert RemarkText(r) == r.space;
      TrimGaps(r.space);
    case Some(comment) =>
      TrimAfterGaps(r.space, "#" + comment);
      TrimKeepsStart("#" + comment);
      var raw := Trim(RemarkText(r));
      assert raw[0] == '#' && IndexOf(raw, '#') == Some(0) && raw[..0] == "";
  }

  lemma BareEnds(text: string)
    requires IsBare(text) && text != ""
    ensures !IsSpace(text[0]) && !IsSpace(text[|text| - 1]) && text[0] != '"' && text[0] != '\''
  {
    hide IsGap;
    GapsAreSpaces(text[0]);
    GapsAreSpaces(text[|text| - 1]);
    assert text[0] in text && text[|text| - 1] in text;
  }

  lemma TextBeforeComment(text: string, r: Remark)
    requires IsBare(text) && text != "" && IsRemark(r)
    ensures var raw := text + TrimEnd(RemarkText(r)); !IsQuoted(raw) && UnquotedValue(raw) == text
  {
    hide IsGap, Trim, TrimEnd;
    BareEnds(text);
    TrimEndRemark(r);
    match r.comment
    case None =>
      assert text + "" == text;
      TrimUnneeded(text);
    case Some(comment) => CommentIsCut(text, r.space, TrimEnd(comment));
  }

  lemma CommentIsCut(text: string, space: string, comment: string)
    requires IsBare(text) && text != "" && IsGaps(space)
    ensures UnquotedValue(text + (space + "#" + comment)) == text
  {
    hide IsGap, Trim, TrimEnd;
    var raw := text + (space + "#" + comment);
    BareEnds(text);
    GapsHave(space);
    assert raw == text + space + "#" + comment;
    FirstIs(text + space, '#', comment);
    assert raw[..|text + space|] == text + space;
    TrimBetween("", text, space);
    assert "" + text + space == text + space;
  }

  lemma DoubleValue(lines: seq<string>, line: nat, space: string, text: string, r: Remark)
    requires line < |lines| && IsGaps(space) && IsForm(Double(text)) && IsRemark(r)
    ensures ValueOn(lines, line, Trim(space + ("\"" + Escape(text) + "\"" + RemarkText(r)))) == Ok((text, line))
  {
    var printed := "\"" + Escape(text) + "\"";
    TrimAfterGaps(space, printed + RemarkText(r));
    TrimKeeps(printed, RemarkText(r));
    LineValue(lines, line, text, RemarkText(r));
    RemarkIsHarmless(r);
    assert AllSurvive(text);
    DecodeEscape(text);
  }

  // ---- Single quotes ----

  lemma {:induction false} NoQuoteCloses(s: string)
    requires '\'' !in s
    ensures Closing(s, '\'', false) == None
  {
    if s != "" {
      assert s == [s[0]] + s[1..];
      NoQuoteCloses(s[1..]);
    }
  }

  lemma {:induction false} QuoteCloses(s: string, after: string)
    requires '\'' !in s
    ensures Closing(s + "'" + after, '\'', false) == Some(|s|)
  {
    var whole := s + "'" + after;
    if s != "" {
      assert s == [s[0]] + s[1..] && whole[1..] == s[1..] + "'" + after;
      QuoteCloses(s[1..], after);
    }
  }

  /** Scanning goes on through the parts and stops at the closing quote. */
  lemma {:induction false} ScanParts(lines: seq<string>, line: nat, content: string, parts: seq<string>, remark: string)
    requires line + |parts| < |lines| && parts != [] && '\'' !in content
    requires forall part <- parts :: '\'' !in part
    requires lines[line + 1..line + 1 + |parts|] == Between(parts, remark)
    ensures |Between(parts, remark)| == |parts|
    ensures Scan(lines, line, content, '\'') == Closed(content + "\n" + Join(parts), remark, line + |parts|)
    decreases |parts|
  {
    hide Closing;
    NoQuoteCloses(content);
    BetweenLength(parts, remark);
    var next := content + "\n" + lines[line + 1];
    assert lines[line + 1] == Between(parts, remark)[0];
    if |parts| == 1 {
      var raw := content + "\n" + parts[0];
      assert next == raw + "'" + remark;
      QuoteCloses(raw, remark);
      assert next[..|raw|] == raw && next[|raw| + 1..] == remark;
    } else {
      assert lines[line + 2..line + 1 + |parts|] == Between(parts[1..], remark);
      assert forall part <- parts[1..] :: part in parts;
      ScanParts(lines, line + 1, next, parts[1..], remark);
      assert content + "\n" + parts[0] + "\n" + Join(parts[1..])
          == content + "\n" + (parts[0] + "\n" + Join(parts[1..]));
    }
  }

  lemma {:induction false} BetweenLength(parts: seq<string>, remark: string)
    requires parts != []
    ensures |Between(parts, remark)| == |parts|
  {
    if |parts| > 1 {
      BetweenLength(parts[1..], remark);
    }
  }

  lemma SingleValueOnLine(lines: seq<string>, line: nat, space: string, part: string, r: Remark)
    requires line < |lines| && IsGaps(space) && '\'' !in part && IsRemark(r)
    ensures ValueOn(lines, line, Trim(space + ("'" + part + "'" + RemarkText(r)))) == Ok((part, line))
  {
    hide Trim, TrimEnd, IsRemark;
    var printed, tail := "'" + part + "'", RemarkText(r);
    TrimAfterGaps(space, printed + tail);
    NotSpaces();
    TrimKeeps(printed, tail);
    var raw := printed + TrimEnd(tail);
    assert raw[1..] == part + "'" + TrimEnd(tail);
    QuoteCloses(part, TrimEnd(tail));
    var content := raw[1..];
    assert content[..|part|] == part && content[|part| + 1..] == TrimEnd(tail);
    TrimAfterTrimEnd(tail);
    RemarkIsHarmless(r);
  }

  lemma NotSpaces()
    ensures !IsSpace('\'') && !IsSpace('"') && !IsSpace('#')
  {}

  lemma OpenedLine(space: string, part: string)
    requires IsGaps(space)
    ensures var raw := Trim(space + ("'" + part)); raw != "" && raw[0] == '\'' && raw[1..] == TrimEnd(part)
  {
    hide Trim, TrimEnd;
    TrimAfterGaps(space, "'" + part);
    NotSpaces();
    TrimKeepsStart("'" + part);
    assert ("'" + part)[1..] == part;
  }

  lemma SingleValueOnLines(lines: seq<string>, line: nat, space: string, parts: seq<string>, r: Remark)
    requires IsGaps(space) && |parts| > 1 && IsForm(Single(parts)) && IsRemark(r)
    requires line + |parts| <= |lines| && lines[line + 1..line + |parts|] == Between(parts[1..], RemarkText(r))
    ensures ValueOn(lines, line, Trim(space + ("'" + parts[0])))
         == Ok((Join([TrimEnd(parts[0])] + parts[1..]), line + |parts| - 1))
  {
    hide Trim, TrimEnd, IsRemark, Scan, Closing, Between, IsGaps, Join;
    var first := TrimEnd(parts[0]);
    OpenedLine(space, parts[0]);
    assert parts[0] in parts && forall part <- parts[1..] :: part in parts;
    TrimEndHas(parts[0]);
    ScanParts(lines, line, first, parts[1..], RemarkText(r));
    JoinCons(first, parts[1..]);
    RemarkIsHarmless(r);
  }

  lemma {:induction false} TrimEndHas(s: string)
    ensures TrimEnd(s) <= s
    ensures forall c <- TrimEnd(s) :: c in s
  {
    if s != "" && IsSpace(s[|s| - 1]) {
      TrimEndHas(s[..|s| - 1]);
    }
  }

  // ---- Reading one item ----

  /** The lines from `at` on are those of the item. */
  predicate StandsAt(lines: seq<string>, at: nat, item: Item)
    requires IsItem(item)
  {
    at + |ItemLines(item)| <= |lines| && lines[at..at + |ItemLines(item)|] == ItemLines(item)
  }

  lemma ItemValue(lines: seq<string>, at: nat, item: Item) returns (after: string)
    requires IsItem(item) && StandsAt(lines, at, item) && item.Assignment?
    ensures lines[at] == item.indent + item.name + item.gap + "=" + after
    ensures ValueOn(lines, at, Trim(after)) == Ok((Meaning(item.form), at + |ItemLines(item)| - 1))
  {
    hide Trim, ValueOn, Escape, Join, TrimEnd, IsRemark, IsGap, IsName;
    var remark := RemarkText(item.remark);
    assert lines[at] == ItemLines(item)[0];
    match item.form
    case Bare(text) =>
      after := item.space + (text + remark);
      BareValue(lines, at, item.space, text, item.remark);
    case Double(text) =>
      after := item.space + ("\"" + Escape(text) + "\"" + remark);
      DoubleValue(lines, at, item.space, text, item.remark);
    case Single(parts) =>
      if |parts| == 1 {
        after := item.space + ("'" + parts[0] + "'" + remark);
        assert parts[0] in parts;
        SingleValueOnLine(lines, at, item.space, parts[0], item.remark);
      } else {
        after := item.space + ("'" + parts[0]);
        BetweenLength(parts[1..], remark);
        assert lines[at + 1..at + |parts|] == ItemLines(item)[1..];
        SingleValueOnLines(lines, at, item.space, parts, item.remark);
      }
  }

  lemma ReadItem(lines: seq<string>, at: nat, item: Item, read: Inventory)
    requires IsItem(item) && StandsAt(lines, at, item)
    ensures ReadLine(lines, at, read) ==
      if item.Blank? then Ok((read, at))
      else if item.name in read.values then Err("Duplicate variable name")
      else Ok((Inventory(Assign(read.values, item.name, Meaning(item.form)), read.names + [item.name]),
               at + |ItemLines(item)| - 1))
  {
    hide Trim, ValueOn, NameOn, IsBlankOrComment, IsRemark, IsGap, IsForm;
    assert lines[at] == ItemLines(item)[0];
    match item
    case Blank(r) => RemarkIsHarmless(r);
    case Assignment(indent, name, gap, _, _, _) =>
      var after := ItemValue(lines, at, item);
      StartIsAssignment(indent, name, gap, after);
  }

  /** A value over several lines is read as it is written exactly when its first line ends in no space. */
  lemma MeantAsWritten(parts: seq<string>)
    requires |parts| > 1 && IsForm(Single(parts))
    ensures Meaning(Single(parts)) == Join(parts) <==> parts[0] == "" || !IsGap(parts[0][|parts[0]| - 1])
  {
    var first, rest := parts[0], parts[1..];
    assert parts == [first] + rest && first in parts;
    JoinCons(first, rest);
    JoinCons(TrimEnd(first), rest);
    if first != "" {
      assert first[|first| - 1] in first;
      GapsAreSpaces(first[|first| - 1]);
      if IsGap(first[|first| - 1]) {
        TrimEndHas(first[..|first| - 1]);
        assert |Join([TrimEnd(first)] + rest)| < |Join([first] + rest)|;
      }
    }
  }

  // ---- Reading a file ----

  function Enter(item: Item, read: Inventory): Inventory
    requires IsItem(item)
  {
    if item.Blank? then read
    else Inventory(Assign(read.values, item.name, Meaning(item.form)), read.names + [item.name])
  }

  predicate AreItems(items: seq<Item>) {
    forall item <- items :: IsItem(item)
  }

  function Entered(items: seq<Item>, read: Inventory): Inventory
    requires AreItems(items)
    decreases |items|
  {
    if items == [] then read else Entered(items[1..], Enter(items[0], read))
  }

  /** Reading the items comes to a name that has a value. */
  predicate Clashes(items: seq<Item>, read: Inventory)
    requires AreItems(items)
    decreases |items|
  {
    items != [] &&
    ((items[0].Assignment? && items[0].name in read.values) || Clashes(items[1..], Enter(items[0], read)))
  }

  lemma FirstItem(lines: seq<string>, at: nat, items: seq<Item>, after: seq<string>)
    requires at <= |lines| && AreItems(items) && items != [] && lines[at..] == Lines(items) + after
    ensures StandsAt(lines, at, items[0])
    ensures at + |ItemLines(items[0])| <= |lines|
    ensures lines[at + |ItemLines(items[0])|..] == Lines(items[1..]) + after
  {
    hide ItemLines, IsItem;
    var first, rest := ItemLines(items[0]), Lines(items[1..]) + after;
    assert lines[at..] == first + rest;
    FrontIs(lines, at, first, rest);
  }

  lemma FrontIs<T>(s: seq<T>, at: nat, front: seq<T>, back: seq<T>)
    requires at <= |s| && s[at..] == front + back
    ensures at + |front| <= |s| && s[at..at + |front|] == front && s[at + |front|..] == back
  {
    assert s[at..at + |front|] == s[at..][..|front|];
    assert s[at + |front|..] == s[at..][|front|..];
  }

  lemma {:induction false} ReadItems(
    lines: seq<string>, at: nat, items: seq<Item>, after: seq<string>, read: Inventory)
    requires at <= |lines| && AreItems(items) && lines[at..] == Lines(items) + after
    ensures at + |Lines(items)| <= |lines|
    ensures ReadLines(lines, at, read) ==
      if Clashes(items, read) then Err("Duplicate variable name")
      else ReadLines(lines, at + |Lines(items)|, Entered(items, read))
    decreases |items|
  {
    hide ReadLine, ReadLines, IsItem, ItemLines, Meaning, Assign;
    if items != [] {
      FirstItem(lines, at, items, after);
      ReadItem(lines, at, items[0], read);
      ReadContinues(lines, at, read);
      if !(items[0].Assignment? && items[0].name in read.values) {
        OneLineEach(items[0]);
        ReadItems(lines, at + |ItemLines(items[0])|, items[1..], after, Enter(items[0], read));
      }
    }
  }

  lemma OneLineEach(item: Item)
    requires IsItem(item)
    ensures item.Blank? ==> |ItemLines(item)| == 1
  {}

  // ---- What the file means ----

  function Names(items: seq<Item>): seq<string> {
    if items == [] then [] else (if items[0].Assignment? then [items[0].name] else []) + Names(items[1..])
  }

  /** A name is assigned twice. Assigning `__proto__` leaves nothing that could be assigned again. */
  predicate Repeats(items: seq<Item>) {
    exists i, j :: 0 <= i < j < |items| && Same(items[i], items[j])
  }

  predicate Same(a: Item, b: Item) {
    a.Assignment? && b.Assignment? && a.name == b.name && a.name != "__proto__"
  }

  predicate Has(item: Item, values: map<string, string>) {
    item.Assignment? && item.name in values
  }

  lemma RepeatsNext(items: seq<Item>)
    requires items != []
    ensures Repeats(items) <==> Repeats(items[1..]) || exists i :: 0 < i < |items| && Same(items[0], items[i])
  {
    var rest := items[1..];
    if i, j :| 0 <= i < j < |rest| && Same(rest[i], rest[j]) {
      assert Same(items[i + 1], items[j + 1]);
    }
    if i, j :| 0 <= i < j < |items| && Same(items[i], items[j]) {
      if i > 0 {
        assert Same(rest[i - 1], rest[j - 1]);
      }
    }
  }

  lemma {:induction false} ClashesExactly(items: seq<Item>, read: Inventory)
    requires AreItems(items) && "__proto__" !in read.values
    ensures Clashes(items, read) <==> Repeats(items) || exists item <- items :: Has(item, read.values)
    decreases |items|
  {
    hide IsItem, Meaning, Repeats;
    if items == [] {
      NothingRepeats();
    } else {
      var first, rest, next := items[0], items[1..], Enter(items[0], read);
      assert items == [first] + rest;
      RepeatsNext(items);
      ClashesExactly(rest, next);
      if !Has(first, read.values) {
        forall item | item in rest
          ensures Has(item, next.values) <==> Has(item, read.values) || Same(first, item)
        {}
        if i :| 0 < i < |items| && Same(first, items[i]) {
          assert items[i] in rest;
        }
        if item :| item in rest && Same(first, item) {
          var i :| 0 <= i < |rest| && rest[i] == item;
          assert items[i + 1] == item;
        }
      }
    }
  }

  lemma NothingRepeats()
    ensures !Repeats([])
  {}

  /** What the items add to what was read: their names in order, and each one's meaning. */
  lemma {:induction false} EnteredExactly(items: seq<Item>, read: Inventory)
    requires AreItems(items) && !Clashes(items, read)
    ensures var r := Entered(items, read);
      && r.names == read.names + Names(items)
      && (forall name :: name in r.values <==> name in read.values || (name in Names(items) && name != "__proto__"))
      && (forall name <- read.values :: r.values[name] == read.values[name])
      && (forall item <- items | item.Assignment? && item.name != "__proto__" ::
        item.name in r.values && r.values[item.name] == Meaning(item.form))
    decreases |items|
  {
    hide IsItem, Meaning;
    if items != [] {
      assert items == [items[0]] + items[1..];
      EnteredExactly(items[1..], Enter(items[0], read));
    }
  }

  // ---- The text of a file ----

  lemma OnLineConcat(a: string, b: string)
    requires OnLine(a) && OnLine(b)
    ensures OnLine(a + b)
  {}

  lemma GapsStayOnLine(gaps: string)
    requires IsGaps(gaps)
    ensures OnLine(gaps)
  {}

  lemma RemarkStaysOnLine(r: Remark)
    requires IsRemark(r)
    ensures OnLine(RemarkText(r))
  {
    GapsStayOnLine(r.space);
  }

  lemma StartStaysOnLine(item: Item)
    requires IsItem(item) && item.Assignment?
    ensures OnLine(Start(item))
  {
    hide IsGaps, IsForm, IsRemark;
    GapsStayOnLine(item.indent);
    GapsStayOnLine(item.gap);
    GapsStayOnLine(item.space);
  }

  lemma {:induction false} BetweenStaysOnLine(parts: seq<string>, remark: string)
    requires parts != [] && (forall part <- parts :: OnLine(part)) && OnLine(remark)
    ensures forall line <- Between(parts, remark) :: OnLine(line)
  {
    assert parts == [parts[0]] + parts[1..];
    assert parts[0] in parts && OnLine("'");
    OnLineConcat(parts[0], "'");
    OnLineConcat(parts[0] + "'", remark);
    if |parts| > 1 {
      BetweenStaysOnLine(parts[1..], remark);
    }
  }

  lemma ItemStaysOnLine(item: Item)
    requires IsItem(item)
    ensures forall line <- ItemLines(item) :: OnLine(line)
  {
    hide IsRemark, IsGaps, IsName, RemarkText, Escape;
    RemarkStaysOnLine(item.remark);
    if item.Assignment? {
      StartStaysOnLine(item);
      match item.form
      case Bare(_) =>
      case Double(text) => EscapeHasNoControl(text);
      case Single(parts) =>
        assert parts == [parts[0]] + parts[1..] && parts[0] in parts;
        if |parts| > 1 {
          BetweenStaysOnLine(parts[1..], RemarkText(item.remark));
        }
    }
  }

  lemma {:induction false} LinesStayOnLine(items: seq<Item>)
    requires AreItems(items)
    ensures forall line <- Lines(items) :: OnLine(line)
  {
    hide IsItem, ItemLines, OnLine;
    if items != [] {
      ItemStaysOnLine(items[0]);
      LinesStayOnLine(items[1..]);
    }
  }

  lemma OnLineRest(s: string)
    requires OnLine(s)
    ensures '\r' !in s && '\n' !in s && '\0' !in s
    ensures s != "" ==> OnLine(s[1..]) && s[0] != '\r' && s[0] != '\n'
  {
    forall c | c in s ensures c != '\n' && c != '\r' && c != '\0' {}
    if s != "" {
      assert s == [s[0]] + s[1..];
    }
  }

  lemma {:induction false} NewlinesWithin(line: string, end: string, rest: string)
    requires OnLine(line) && IsLineEnd(end) && (end == "\r" && rest != "" ==> rest[0] != '\n')
    ensures UnixNewlines(line + end + rest) == line + "\n" + UnixNewlines(rest)
  {
    var all := line + end + rest;
    if line == "" {
      assert all == end + rest;
      if end == "\r\n" {
        assert all[2..] == rest;
      } else {
        assert all[1..] == rest;
      }
    } else {
      OnLineRest(line);
      assert all[0] == line[0] && all[1..] == line[1..] + end + rest;
      NewlinesWithin(line[1..], end, rest);
      assert UnixNewlines(all) == [line[0]] + UnixNewlines(all[1..]);
      hide UnixNewlines;
      assert [line[0]] + (line[1..] + "\n" + UnixNewlines(rest)) == line + "\n" + UnixNewlines(rest);
    }
  }

  lemma {:induction false} LineEndsAreNewlines(lines: seq<string>, end: string)
    requires (forall line <- lines :: OnLine(line)) && IsLineEnd(end)
    ensures UnixNewlines(JoinWith(lines, end)) == Join(lines)
    ensures '\0' !in JoinWith(lines, end)
    ensures end == "\r" && JoinWith(lines, end) != "" ==> JoinWith(lines, end)[0] != '\n'
  {
    hide UnixNewlines;
    if lines == [] {
      NoCarriageReturn("");
    } else {
      assert lines == [lines[0]] + lines[1..];
      assert lines[0] in lines;
      OnLineRest(lines[0]);
      if |lines| == 1 {
        NoCarriageReturn(lines[0]);
      } else {
        LineEndsAreNewlines(lines[1..], end);
        NewlinesWithin(lines[0], end, JoinWith(lines[1..], end));
      }
    }
  }

  // ---- The results ----

  const NOTHING := Inventory(map[], [])

  /** The reader works on the lines, whichever line ends they have. */
  lemma ReadsTheLines(lines: seq<string>, end: string)
    requires lines != [] && (forall line <- lines :: OnLine(line)) && IsLineEnd(end)
    ensures Read(JoinWith(lines, end)) == ReadLines(lines, 0, NOTHING)
  {
    hide ReadLines, UnixNewlines;
    LineEndsAreNewlines(lines, end);
    forall line <- lines ensures '\n' !in line {
      OnLineRest(line);
    }
    SplitJoin(lines);
  }

  lemma ReadsTheItems(items: seq<Item>, more: seq<string>, end: string)
    requires AreItems(items) && Lines(items) + more != [] && (forall line <- more :: OnLine(line)) && IsLineEnd(end)
    ensures Read(JoinWith(Lines(items) + more, end)) ==
      if Repeats(items) then Err("Duplicate variable name")
      else ReadLines(Lines(items) + more, |Lines(items)|, Entered(items, NOTHING))
    ensures !Repeats(items) ==> !Clashes(items, NOTHING)
  {
    hide Read, ReadLines, OnLine, ItemLines, Repeats, Clashes, IsItem;
    var lines := Lines(items) + more;
    LinesStayOnLine(items);
    ReadsTheLines(lines, end);
    assert lines[0..] == lines;
    ReadItems(lines, 0, items, more, NOTHING);
    ClashesExactly(items, NOTHING);
  }

  /**
   A file of items, whatever they are: it is refused if and only if a name is assigned twice. Otherwise it
   reads as the names in order and each one's meaning, with nothing added and nothing left out.
   */
  lemma ReadsExactly(items: seq<Item>, end: string)
    requires AreItems(items) && IsLineEnd(end)
    ensures var r := Read(JoinWith(Lines(items), end));
      && (Repeats(items) ==> r == Err("Duplicate variable name"))
      && (!Repeats(items) ==>
          && r.Ok? && r.value.names == Names(items)
          && (forall name :: name in r.value.values <==> name in Names(items) && name != "__proto__")
          && (forall item <- items | item.Assignment? && item.name != "__proto__" ::
            item.name in r.value.values && r.value.values[item.name] == Meaning(item.form)))
  {
    hide Read, ReadLines, Repeats, Clashes, IsItem, ItemLines, Meaning;
    if items == [] {
      NothingRepeats();
      ReadsTheLines([""], end);
      EmptyLineIsRead();
    } else {
      ReadsTheItems(items, [], end);
      assert Lines(items) + [] == Lines(items);
      if !Repeats(items) {
        NoLinesLeft(Lines(items), Entered(items, NOTHING));
        EnteredExactly(items, NOTHING);
      }
    }
  }

  lemma EmptyLineIsRead()
    ensures ReadLines([""], 0, NOTHING) == Ok(NOTHING)
  {
    ReadContinues([""], 0, NOTHING);
  }

  lemma NoLinesLeft(lines: seq<string>, read: Inventory)
    ensures ReadLines(lines, |lines|, read) == Ok(read)
  {}

  // ---- What is refused ----

  /** After any items that can be read, a line that is refused makes the file refused, for its reason. */
  lemma RefusedLine(items: seq<Item>, line: string, more: seq<string>, end: string, reason: string)
    requires AreItems(items) && !Repeats(items) && OnLine(line) && (forall l <- more :: OnLine(l)) && IsLineEnd(end)
    requires var lines := Lines(items) + ([line] + more);
      ReadLine(lines, |Lines(items)|, Entered(items, NOTHING)) == Err(reason)
    ensures Read(JoinWith(Lines(items) + ([line] + more), end)) == Err(reason)
  {
    hide Read, ReadLine, ReadLines, OnLine, IsItem, ItemLines;
    ReadsTheItems(items, [line] + more, end);
    ReadContinues(Lines(items) + ([line] + more), |Lines(items)|, Entered(items, NOTHING));
  }

  lemma {:induction false} NoEquals(s: string)
    requires '=' !in s
    ensures IndexOf(s, '=') == None
  {}

  lemma StartsNoComment(indent: string, text: string)
    requires IsGaps(indent) && OnLine(text) && text != "" && !IsGap(text[0]) && text[0] != '#'
    ensures !IsBlankOrComment(indent + text)
  {
    TrimAfterGaps(indent, text);
    OnLineRest(text);
    GapsAreSpaces(text[0]);
    TrimKeepsStart(text);
  }

  /** A line that is neither blank nor a comment needs an equals sign. */
  lemma NoAssignmentIsRefused(items: seq<Item>, indent: string, text: string, more: seq<string>, end: string)
    requires AreItems(items) && !Repeats(items) && (forall l <- more :: OnLine(l)) && IsLineEnd(end)
    requires IsGaps(indent) && OnLine(text) && text != "" && !IsGap(text[0]) && text[0] != '#' && '=' !in text
    ensures Read(JoinWith(Lines(items) + ([indent + text] + more), end)) == Err("Malformed assignment")
  {
    hide Read, IsItem, ItemLines, IsBlankOrComment, IsGap, Repeats, JoinWith;
    StartsNoComment(indent, text);
    GapsHave(indent);
    NoEquals(indent + text);
    GapsStayOnLine(indent);
    OnLineConcat(indent, text);
    assert (Lines(items) + ([indent + text] + more))[|Lines(items)|] == indent + text;
    RefusedLine(items, indent + text, more, end, "Malformed assignment");
  }

  /** What stands before the first equals sign, without space around it, has to be a name. */
  lemma BadNameIsRefused(
    items: seq<Item>, indent: string, name: string, gap: string, after: string, more: seq<string>, end: string)
    requires AreItems(items) && !Repeats(items) && (forall l <- more :: OnLine(l)) && IsLineEnd(end)
    requires IsGaps(indent) && IsGaps(gap) && OnLine(name) && OnLine(after) && !IsName(name) && '=' !in name
    requires name != "" ==> !IsGap(name[0]) && !IsGap(name[|name| - 1]) && name[0] != '#'
    ensures Read(JoinWith(Lines(items) + ([indent + name + gap + "=" + after] + more), end)) ==
      Err(if indent + name + gap == "" then "Malformed assignment" else "Invalid variable name")
  {
    hide Read, IsItem, ItemLines, IsBlankOrComment, IsGap, Repeats, JoinWith, IsIdentifier, IsName, Trim, ReadLines;
    var before := indent + name + gap;
    var line := before + "=" + after;
    NamesAreIdentifiers(name);
    GapsHave(indent);
    GapsHave(gap);
    FirstIs(before, '=', after);
    assert line[..|before|] == before;
    TrimmedName(indent, name, gap);
    NotBlank(indent, name, gap, after);
    GapsStayOnLine(indent);
    GapsStayOnLine(gap);
    assert OnLine(line);
    assert (Lines(items) + ([line] + more))[|Lines(items)|] == line;
    RefusedLine(items, line, more, end, if before == "" then "Malformed assignment" else "Invalid variable name");
  }

  lemma TrimmedName(indent: string, name: string, gap: string)
    requires IsGaps(indent) && IsGaps(gap) && OnLine(name)
    requires name != "" ==> !IsGap(name[0]) && !IsGap(name[|name| - 1])
    ensures Trim(indent + name + gap) == name
  {
    if name == "" {
      assert indent + name + gap == indent + gap;
      TrimGaps(indent + gap);
    } else {
      assert name[0] in name && name[|name| - 1] in name;
      GapsAreSpaces(name[0]);
      GapsAreSpaces(name[|name| - 1]);
      TrimBetween(indent, name, gap);
    }
  }

  lemma NotBlank(indent: string, name: string, gap: string, after: string)
    requires IsGaps(indent) && IsGaps(gap) && OnLine(name) && OnLine(after)
    requires name != "" ==> !IsGap(name[0]) && name[0] != '#'
    ensures !IsBlankOrComment(indent + name + gap + "=" + after)
  {
    hide IsBlankOrComment;
    GapsStayOnLine(gap);
    if name == "" {
      assert indent + name + gap + "=" + after == indent + gap + ("=" + after);
      GapsAreSpaces('=');
      StartsNoComment(indent + gap, "=" + after);
    } else {
      assert indent + name + gap + "=" + after == indent + (name + gap + "=" + after);
      StartsNoComment(indent, name + gap + "=" + after);
    }
  }

  /** The assignment of a new name is refused for what is wrong with its value. */
  lemma RefusedValue(items: seq<Item>, indent: string, name: string, gap: string, after: string, more: seq<string>,
                     end: string, reason: string)
    requires AreItems(items) && !Repeats(items) && (forall l <- more :: OnLine(l)) && IsLineEnd(end)
    requires IsGaps(indent) && IsName(name) && IsGaps(gap) && OnLine(after)
    requires name !in Names(items)
    requires var lines := Lines(items) + ([indent + name + gap + "=" + after] + more);
      ValueOn(lines, |Lines(items)|, Trim(after)) == Err(reason)
    ensures Read(JoinWith(Lines(items) + ([indent + name + gap + "=" + after] + more), end)) == Err(reason)
  {
    hide Read, IsItem, ItemLines, IsBlankOrComment, IsGap, Repeats, JoinWith, NameOn, ValueOn, Trim, ReadLines, Clashes;
    var line := indent + name + gap + "=" + after;
    StartIsAssignment(indent, name, gap, after);
    GapsStayOnLine(indent);
    GapsStayOnLine(gap);
    NameStaysOnLine(name);
    assert OnLine(line);
    assert (Lines(items) + ([line] + more))[|Lines(items)|] == line;
    ClashesExactly(items, NOTHING);
    EnteredExactly(items, NOTHING);
    RefusedLine(items, line, more, end, reason);
  }

  lemma NameStaysOnLine(name: string)
    requires IsName(name)
    ensures OnLine(name)
  {}

  /** Behind the closing quote there may only be a comment. */
  lemma TextAfterQuoteIsRefused(items: seq<Item>, indent: string, name: string, gap: string, text: string,
                                space: string, junk: string, more: seq<string>, end: string)
    requires AreItems(items) && !Repeats(items) && (forall l <- more :: OnLine(l)) && IsLineEnd(end)
    requires IsGaps(indent) && IsName(name) && IsGaps(gap) && name !in Names(items)
    requires OnLine(text) && '\'' !in text && IsGaps(space)
    requires OnLine(junk) && junk != "" && !IsGap(junk[0]) && junk[0] != '#'
    ensures Read(JoinWith(
      Lines(items) + ([indent + name + gap + "=" + ("'" + text + "'" + (space + junk))] + more), end))
      == Err("Unexpected content")
    ensures Read(JoinWith(
      Lines(items) + ([indent + name + gap + "=" + ("\"" + Escape(text) + "\"" + (space + junk))] + more), end))
      == Err("Unexpected content")
  {
    hide Read, IsItem, ItemLines, IsGap, Repeats, JoinWith, Lines, Trim, ReadLines, ValueOn, Escape;
    var tail, at := space + junk, |Lines(items)|;
    StartsNoComment(space, junk);
    GapsStayOnLine(space);
    var single, double := "'" + text + "'" + tail, "\"" + Escape(text) + "\"" + tail;
    SingleTail(Lines(items) + ([indent + name + gap + "=" + single] + more), at, text, tail);
    RefusedValue(items, indent, name, gap, single, more, end, "Unexpected content");
    EscapeHasNoControl(text);
    NotSpaces();
    TrimKeeps("\"" + Escape(text) + "\"", tail);
    LineValue(Lines(items) + ([indent + name + gap + "=" + double] + more), at, text, tail);
    assert OnLine(double);
    RefusedValue(items, indent, name, gap, double, more, end, "Unexpected content");
  }

  lemma SingleTail(lines: seq<string>, line: nat, text: string, tail: string)
    requires line < |lines| && '\'' !in text && !IsHarmless(tail)
    ensures ValueOn(lines, line, Trim("'" + text + "'" + tail)) == Err("Unexpected content")
  {
    hide Trim, TrimEnd;
    NotSpaces();
    TrimKeeps("'" + text + "'", tail);
    var raw := "'" + text + "'" + TrimEnd(tail);
    assert raw[1..] == text + "'" + TrimEnd(tail);
    QuoteCloses(text, TrimEnd(tail));
    assert raw[1..][..|text|] == text && raw[1..][|text| + 1..] == TrimEnd(tail);
    TrimAfterTrimEnd(tail);
  }

  /** A quote that is not closed anywhere in the rest of the file. */
  lemma UnclosedIsRefused(items: seq<Item>, indent: string, name: string, gap: string, quote: char, text: string,
                          more: seq<string>, end: string)
    requires AreItems(items) && !Repeats(items) && (forall l <- more :: OnLine(l)) && IsLineEnd(end)
    requires IsGaps(indent) && IsName(name) && IsGaps(gap) && name !in Names(items)
    requires quote == '\'' || quote == '"'
    requires OnLine(text) && quote !in text && forall l <- more :: quote !in l
    ensures Read(JoinWith(Lines(items) + ([indent + name + gap + "=" + ([quote] + text)] + more), end))
      == Err("Unterminated quoted value")
  {
    hide Read, IsItem, ItemLines, IsGap, Repeats, JoinWith, Lines, Trim, TrimEnd, ReadLines, ReadLine;
    var after := [quote] + text;
    var lines, at := Lines(items) + ([indent + name + gap + "=" + after] + more), |Lines(items)|;
    NotSpaces();
    TrimKeepsStart(after);
    assert after[1..] == text;
    TrimEndHas(text);
    assert Trim(after) == [quote] + TrimEnd(text) && Trim(after)[1..] == TrimEnd(text);
    assert forall i :: at < i < |lines| ==> lines[i] == more[i - at - 1];
    NeverCloses(lines, at, TrimEnd(text), quote);
    RefusedValue(items, indent, name, gap, after, more, end, "Unterminated quoted value");
  }

  lemma {:induction false} NeverCloses(lines: seq<string>, line: nat, content: string, quote: char)
    requires line < |lines| && quote !in content && (quote == '\'' || quote == '"')
    requires forall i :: line < i < |lines| ==> quote !in lines[i]
    ensures Scan(lines, line, content, quote) == Unterminated
    decreases |lines| - line
  {
    hide Closing;
    NoneIsFound(content, quote, false);
    if line + 1 < |lines| {
      NeverCloses(lines, line + 1, content + "\n" + lines[line + 1], quote);
    }
  }

  lemma {:induction false} NoneIsFound(s: string, quote: char, escaped: bool)
    requires quote !in s
    ensures Closing(s, quote, escaped) == None
  {
    if s != "" {
      assert s == [s[0]] + s[1..];
      NoneIsFound(s[1..], quote, quote == '"' && s[0] == '\\' && !escaped);
    }
  }
}
