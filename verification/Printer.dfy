/**
 The printers of the private inventories, `serializeEnvironment` and `serialize`, against the reader.

 `ReadsBackExactly` is the main result: an inventory survives printing and reading if and only if its
 names are identifiers other than `__proto__` and its values hold no control character but newline,
 carriage return and tab.

 The names are printed in the order `localeCompare` gives them. No result here depends on it: every
 statement is about any order `names` of the keys of `values`.
 */
module Printer {
  import opened Collections
  import opened Dotenv
  import opened Text
  import opened Wrappers

  // The heading is put together from parts, which proofs go through one by one.
  const HEADER_START := " Private inert production"
  const HEADER_MIDDLE := " inventory. Never source"
  const HEADER_END := " this file."
  const HEADER_TEXT := HEADER_START + HEADER_MIDDLE + HEADER_END
  const HEADER := "#" + HEADER_TEXT

  function HexDigit(n: nat): char
    requires n < 16
  {
    "0123456789abcdef"[n]
  }

  /** How `JSON.stringify` writes one character of a string. */
  function EscapeChar(c: char): string {
    if c == '"' then "\\\""
    else if c == '\\' then "\\\\"
    else if c == '\n' then "\\n"
    else if c == '\r' then "\\r"
    else if c == '\t' then "\\t"
    else if c == '\U{8}' then "\\b"
    else if c == '\U{C}' then "\\f"
    else if c < ' ' then "\\u" + CodeDigits(c)
    else [c]
  }

  /** The four hexadecimal digits of a control character. */
  function CodeDigits(c: char): string
    requires c < ' '
  {
    ['0', '0', HexDigit(c as int / 16), HexDigit(c as int % 16)]
  }

  function Escape(s: string): string {
    if s == "" then "" else EscapeChar(s[0]) + Escape(s[1..])
  }

  function AssignmentLine(name: string, value: string): string {
    name + "=\"" + Escape(value) + "\""
  }

  /** The assignments of `names`, one a line; `values[name] ?? ""` never needs its default here. */
  function Assignments(names: seq<string>, values: map<string, string>): seq<string>
    requires forall name <- names :: name in values
  {
    if names == [] then []
    else [AssignmentLine(names[0], values[names[0]])] + Assignments(names[1..], values)
  }

  /** Joining no assignments still leaves one empty line. */
  function Body(names: seq<string>, values: map<string, string>): (lines: seq<string>)
    requires forall name <- names :: name in values
    ensures lines != []
  {
    if names == [] then [""] else Assignments(names, values)
  }

  ghost predicate Lists(names: seq<string>, values: map<string, string>) {
    && Distinct(names)
    && (forall name :: name in names <==> name in values)
  }

  /** `serializeEnvironment` of the password rotation. */
  function SerializeEnvironment(names: seq<string>, values: map<string, string>): string
    requires Lists(names, values)
  {
    Join(Body(names, values)) + "\n"
  }

  /** `serialize` of the inventory preparation, which puts a comment first. */
  function SerializeInventory(names: seq<string>, values: map<string, string>): string
    requires Lists(names, values)
  {
    HEADER + "\n" + Join(Body(names, values)) + "\n"
  }

  // ---- What is printed is one line each ----

  predicate Survives(c: char) {
    c >= ' ' || c == '\n' || c == '\r' || c == '\t'
  }

  predicate IsPrintable(values: map<string, string>) {
    forall name <- values ::
      IsIdentifier(name) && name != "__proto__" && AllSurvive(values[name])
  }

  lemma {:induction false} EscapeHasNoControl(s: string)
    ensures forall c <- Escape(s) :: c >= ' '
  {
    if s != "" {
      EscapeCharHasNoControl(s[0]);
      EscapeHasNoControl(s[1..]);
    }
  }

  lemma EscapeCharHasNoControl(c: char)
    ensures forall x <- EscapeChar(c) :: x >= ' '
  {
    EscapeShape(c);
  }

  /** Scanning for a quote passes over all of `s` and has no backslash pending at its end. */
  predicate IsTransparent(s: string, escaped: bool) {
    if s == "" then !escaped
    else if s[0] == '\\' && !escaped then IsTransparent(s[1..], true)
    else (escaped || s[0] != '"') && IsTransparent(s[1..], false)
  }

  lemma {:induction false} TransparentSkips(s: string, escaped: bool, rest: string)
    requires IsTransparent(s, escaped) && Closing(rest, '"', false) == Some(0)
    ensures Closing(s + rest, '"', escaped) == Some(|s|)
  {
    if s == "" {
      assert s + rest == rest;
    } else {
      assert (s + rest)[1..] == s[1..] + rest;
      TransparentSkips(s[1..], s[0] == '\\' && !escaped, rest);
    }
  }

  lemma {:induction false} TransparentConcat(s: string, escaped: bool, t: string)
    requires IsTransparent(s, escaped) && IsTransparent(t, false)
    ensures IsTransparent(s + t, escaped)
  {
    if s == "" {
      assert s + t == t;
    } else {
      assert (s + t)[1..] == s[1..] + t;
      TransparentConcat(s[1..], s[0] == '\\' && !escaped, t);
    }
  }

  lemma {:induction false} PlainIsTransparent(s: string)
    requires IsPlain(s)
    ensures IsTransparent(s, false)
  {
    if s != "" {
      PlainIsTransparent(s[1..]);
    }
  }

  lemma PairIsTransparent(c: char)
    ensures IsTransparent(['\\', c], false)
  {
    assert ['\\', c][1..] == [c] && [c][1..] == "";
    assert IsTransparent([c], true);
  }

  lemma EscapeCharIsTransparent(c: char)
    ensures IsTransparent(EscapeChar(c), false)
  {
    var e := EscapeChar(c);
    EscapeShape(c);
    if |e| == 1 {
      PlainIsTransparent(e);
    } else if |e| == 2 {
      PairIsTransparent(e[1]);
    } else {
      PairIsTransparent('u');
      DigitsArePlain(c);
      PlainIsTransparent(CodeDigits(c));
      TransparentConcat(['\\', 'u'], false, CodeDigits(c));
    }
  }

  /** A printed value has no unescaped quote, so the quote printed after it is the closing one. */
  lemma {:induction false} EscapeIsTransparent(s: string)
    ensures IsTransparent(Escape(s), false)
  {
    if s != "" {
      EscapeIsTransparent(s[1..]);
      EscapeCharIsTransparent(s[0]);
      TransparentConcat(EscapeChar(s[0]), false, Escape(s[1..]));
    }
  }

  /** Characters a backslash or a quote does not touch. */
  predicate IsPlain(s: string) {
    s == "" || (s[0] != '"' && s[0] != '\\' && IsPlain(s[1..]))
  }

  lemma DigitsArePlain(c: char)
    requires c < ' '
    ensures IsPlain(CodeDigits(c))
  {
    var d := CodeDigits(c);
    assert d[1..][1..] == d[2..] && d[2..][1..] == d[3..] && d[3..][1..] == "";
    assert IsPlain(d[3..]);
    assert IsPlain(d[2..]);
  }

  lemma EscapeShape(c: char)
    ensures var e := EscapeChar(c);
      || (e == [c] && IsPlain(e) && Survives(c))
      || (|e| == 2 && e == ['\\', e[1]] && Replacement(e[1]) == if Survives(c) then [c] else e)
      || (c < ' ' && e == ['\\', 'u'] + CodeDigits(c) && !Survives(c))
  {
    var e := EscapeChar(c);
    if |e| == 1 {
      assert e == [c] && [c][1..] == "" && IsPlain([c][1..]);
    }
  }

  // ---- Decoding undoes escaping, exactly for the characters that survive ----

  lemma {:induction false} DecodePlain(plain: string, rest: string)
    requires IsPlain(plain)
    ensures Decode(plain + rest) == plain + Decode(rest)
  {
    hide Decode;
    if plain == "" {
      assert plain + rest == rest;
    } else {
      var tail := plain[1..] + rest;
      assert plain + rest == [plain[0]] + tail;
      DecodePlain(plain[1..], rest);
      DecodeOne(plain[0], tail);
    }
  }

  lemma DecodeOne(c: char, rest: string)
    requires c != '\\'
    ensures Decode([c] + rest) == [c] + Decode(rest)
  {
    assert ([c] + rest)[1..] == rest;
  }

  lemma DecodePair(next: char, rest: string)
    ensures Decode(['\\', next] + rest) == Replacement(next) + Decode(rest)
  {
    assert (['\\', next] + rest)[2..] == rest;
  }

  lemma DecodeChar(c: char, rest: string)
    ensures Decode(EscapeChar(c) + rest) == (if Survives(c) then [c] else EscapeChar(c)) + Decode(rest)
  {
    var e := EscapeChar(c);
    EscapeShape(c);
    if |e| == 1 {
      DecodePlain(e, rest);
    } else if |e| == 2 {
      DecodePair(e[1], rest);
    } else {
      DigitsArePlain(c);
      DecodePlain(CodeDigits(c), rest);
      DecodePair('u', CodeDigits(c) + rest);
      assert e + rest == ['\\', 'u'] + (CodeDigits(c) + rest);
      assert e + Decode(rest) == ['\\', 'u'] + (CodeDigits(c) + Decode(rest));
    }
  }

  predicate AllSurvive(s: string) {
    forall c <- s :: Survives(c)
  }

  lemma AllSurviveNext(s: string)
    requires s != ""
    ensures AllSurvive(s) <==> Survives(s[0]) && AllSurvive(s[1..])
  {
    assert s == [s[0]] + s[1..];
  }

  lemma DecodeFirst(s: string)
    requires s != ""
    ensures var rest := Decode(Escape(s[1..]));
      if Survives(s[0]) then Decode(Escape(s)) == [s[0]] + rest else |Decode(Escape(s))| >= 2 + |rest|
  {
    DecodeChar(s[0], Escape(s[1..]));
    EscapeShape(s[0]);
  }

  lemma {:induction false} DecodeEscape(s: string)
    ensures |Decode(Escape(s))| >= |s|
    ensures AllSurvive(s) ==> Decode(Escape(s)) == s
    ensures |Decode(Escape(s))| == |s| ==> AllSurvive(s)
  {
    if s != "" {
      DecodeEscape(s[1..]);
      DecodeFirst(s);
      AllSurviveNext(s);
    }
  }

  // ---- What the printer writes is JSON ----

  /** The value of a hexadecimal digit. */
  function DigitValue(c: char): int {
    if '0' <= c <= '9' then c as int - '0' as int else c as int - 'a' as int + 10
  }

  /** What the escapes of one letter stand for. */
  function Lettered(letter: char): char {
    match letter
    case 'b' => '\U{8}'
    case 'f' => '\U{C}'
    case 'n' => '\n'
    case 'r' => '\r'
    case 't' => '\t'
    case c => c
  }

  /** What `JSON.parse` makes of the inside of a string, for the escapes of section 7 of RFC 8259. */
  function JsonText(s: string): string {
    if s == "" then ""
    else if s[0] != '\\' || |s| == 1 then [s[0]] + JsonText(s[1..])
    else if s[1] == 'u' then
      if |s| < 6 then s
      else
        var code := ((DigitValue(s[2]) * 16 + DigitValue(s[3])) * 16 + DigitValue(s[4])) * 16 + DigitValue(s[5]);
        (if 0 <= code < 0xD800 then [code as char] else s[..6]) + JsonText(s[6..])
    else
      [Lettered(s[1])] + JsonText(s[2..])
  }

  lemma JsonPlain(c: char, rest: string)
    requires c != '\\'
    ensures JsonText([c] + rest) == [c] + JsonText(rest)
  {
    assert ([c] + rest)[1..] == rest;
  }

  lemma JsonPair(letter: char, rest: string)
    requires letter != 'u'
    ensures JsonText(['\\', letter] + rest) == [Lettered(letter)] + JsonText(rest)
  {
    assert (['\\', letter] + rest)[2..] == rest;
  }

  lemma EscapeForms(c: char)
    ensures var e := EscapeChar(c);
      || (c != '\\' && e == [c])
      || (|e| == 2 && e == ['\\', e[1]] && e[1] != 'u' && Lettered(e[1]) == c)
      || (c < ' ' && e == "\\u" + CodeDigits(c))
  {}

  lemma JsonChar(c: char, rest: string)
    ensures JsonText(EscapeChar(c) + rest) == [c] + JsonText(rest)
  {
    hide JsonText, Lettered, EscapeChar, CodeDigits;
    var e := EscapeChar(c);
    EscapeForms(c);
    if e == [c] && c != '\\' {
      JsonPlain(c, rest);
    } else if |e| == 2 && e == ['\\', e[1]] && e[1] != 'u' {
      JsonPair(e[1], rest);
    } else {
      JsonCode(c, rest);
    }
  }

  lemma JsonCode(c: char, rest: string)
    requires c < ' '
    ensures JsonText("\\u" + CodeDigits(c) + rest) == [c] + JsonText(rest)
  {
    var s := "\\u" + CodeDigits(c) + rest;
    DigitsHaveValues(c as int / 16);
    DigitsHaveValues(c as int % 16);
    assert s[6..] == rest && s[2] == '0' && s[3] == '0';
    assert s[4] == HexDigit(c as int / 16) && s[5] == HexDigit(c as int % 16);
    hide HexDigit, DigitValue;
    assert DigitValue('0') == 0 by { ZeroHasValue(); }
  }

  lemma ZeroHasValue()
    ensures DigitValue('0') == 0
  {}

  lemma DigitsHaveValues(n: nat)
    requires n < 16
    ensures DigitValue(HexDigit(n)) == n
  {}

  /** Every value is printed so that JSON gives it back, also the ones the inventory reader does not. */
  lemma {:induction false} EscapeIsJson(s: string)
    ensures JsonText(Escape(s)) == s
  {
    hide JsonText, EscapeChar;
    if s == "" {
      NoText();
    } else {
      EscapeIsJson(s[1..]);
      JsonChar(s[0], Escape(s[1..]));
    }
  }

  lemma NoText()
    ensures JsonText("") == ""
  {}

  // ---- Reading one printed line ----

  lemma IdentifierShape(name: string)
    requires IsIdentifier(name)
    ensures Trim(name) == name && (forall c <- name :: c > ' ') && '=' !in name && name[0] != '#'
  {
    assert name[|name| - 1] in name;
    TrimUnneeded(name);
  }

  /** Text after a closing quote that the reader passes over: nothing, or a comment. */
  predicate IsHarmless(tail: string) {
    Trim(tail) == "" || Trim(tail)[0] == '#'
  }

  lemma LineShape(name: string, value: string, tail: string)
    requires IsIdentifier(name)
    ensures !IsBlankOrComment(AssignmentLine(name, value) + tail)
  {
    IdentifierShape(name);
    assert name[0] in name;
    TrimKeepsStart(AssignmentLine(name, value) + tail);
  }

  lemma LineHasNoControl(name: string, value: string)
    requires IsIdentifier(name)
    ensures NoControl(AssignmentLine(name, value))
  {
    EscapeHasNoControl(value);
    IdentifierShape(name);
  }

  lemma LineName(name: string, value: string, tail: string)
    requires IsIdentifier(name)
    ensures NameOn(AssignmentLine(name, value) + tail) == Ok((name, "\"" + Escape(value) + "\"" + TrimEnd(tail)))
  {
    hide Trim, TrimEnd, Escape;
    var printed := "\"" + Escape(value) + "\"";
    var line := name + "=" + (printed + tail);
    assert AssignmentLine(name, value) + tail == line;
    IdentifierShape(name);
    FirstIs(name, '=', printed + tail);
    assert line[..|name|] == name && line[|name| + 1..] == printed + tail;
    TrimKeeps(printed, tail);
  }

  lemma {:induction false} FirstIs(before: string, c: char, after: string)
    requires c !in before
    ensures IndexOf(before + [c] + after, c) == Some(|before|)
  {
    var s := before + [c] + after;
    if before != "" {
      FirstIs(before[1..], c, after);
      assert before == [before[0]] + before[1..];
      assert s[1..] == before[1..] + [c] + after;
    }
  }

  /** The quote printed after a value is the one that closes it, whatever follows. */
  lemma ValueCloses(value: string, tail: string)
    ensures Closing(Escape(value) + "\"" + tail, '"', false) == Some(|Escape(value)|)
  {
    EscapeIsTransparent(value);
    TransparentSkips(Escape(value), false, "\"" + tail);
    assert Escape(value) + ("\"" + tail) == Escape(value) + "\"" + tail;
  }

  lemma ValueScans(lines: seq<string>, line: nat, value: string, tail: string)
    requires line < |lines|
    ensures Scan(lines, line, Escape(value) + "\"" + tail, '"') == Closed(Escape(value), tail, line)
  {
    var content, k := Escape(value) + "\"" + tail, |Escape(value)|;
    ValueCloses(value, tail);
    assert content[..k] == Escape(value) && content[k + 1..] == tail;
  }

  lemma LineValue(lines: seq<string>, line: nat, value: string, tail: string)
    requires line < |lines|
    ensures ValueOn(lines, line, "\"" + Escape(value) + "\"" + TrimEnd(tail))
         == if IsHarmless(tail) then Ok((Decode(Escape(value)), line)) else Err("Unexpected content")
  {
    hide Scan, Trim, TrimEnd, Escape, Decode;
    var printed := "\"" + Escape(value) + "\"" + TrimEnd(tail);
    ValueScans(lines, line, value, TrimEnd(tail));
    assert printed[1..] == Escape(value) + "\"" + TrimEnd(tail);
    TrimAfterTrimEnd(tail);
  }

  // ---- Reading what was printed ----

  /** The values as the reader gives them back, whatever characters they hold. */
  function Reread(values: map<string, string>): map<string, string> {
    map name | name in values :: Decode(Escape(values[name]))
  }

  ghost predicate AllNames(names: seq<string>) {
    forall name <- names :: IsIdentifier(name) && name != "__proto__"
  }

  function Extended(read: Inventory, names: seq<string>, values: map<string, string>): Inventory
    requires forall name <- names :: name in values
    decreases |names|
  {
    if names == [] then read
    else
      Extended(Inventory(read.values[names[0] := Decode(Escape(values[names[0]]))], read.names + [names[0]]),
               names[1..], values)
  }

  lemma {:induction false} ExtendedAt(
    read: Inventory, names: seq<string>, values: map<string, string>, name: string)
    requires forall n <- names :: n in values
    ensures var e := Extended(read, names, values).values;
      && (name in e <==> name in names || name in read.values)
      && (name in names ==> e[name] == Decode(Escape(values[name])))
      && (name !in names && name in read.values ==> e[name] == read.values[name])
    decreases |names|
  {
    if names != [] {
      var next := Inventory(read.values[names[0] := Decode(Escape(values[names[0]]))], read.names + [names[0]]);
      assert name in names <==> name == names[0] || name in names[1..];
      ExtendedAt(next, names[1..], values, name);
    }
  }

  lemma {:induction false} ExtendedNames(read: Inventory, names: seq<string>, values: map<string, string>)
    requires forall n <- names :: n in values
    ensures Extended(read, names, values).names == read.names + names
    decreases |names|
  {
    if names != [] {
      var next := Inventory(read.values[names[0] := Decode(Escape(values[names[0]]))], read.names + [names[0]]);
      ExtendedNames(next, names[1..], values);
    }
  }

  lemma ExtendedIsReread(names: seq<string>, values: map<string, string>)
    requires Lists(names, values)
    ensures Extended(Inventory(map[], []), names, values) == Inventory(Reread(values), names)
  {
    var empty := Inventory(map[], []);
    ExtendedNames(empty, names, values);
    forall name
      ensures name in Extended(empty, names, values).values <==> name in Reread(values)
      ensures name in values ==> Extended(empty, names, values).values[name] == Reread(values)[name]
    {
      ExtendedAt(empty, names, values, name);
    }
  }

  /** A printed assignment with anything after its closing quote is one assignment or refused. */
  lemma ReadOne(lines: seq<string>, line: nat, name: string, value: string, tail: string, read: Inventory)
    requires line < |lines| && lines[line] == AssignmentLine(name, value) + tail
    requires IsIdentifier(name) && name != "__proto__" && name !in read.values
    ensures ReadLine(lines, line, read) ==
      if IsHarmless(tail)
      then Ok((Inventory(read.values[name := Decode(Escape(value))], read.names + [name]), line))
      else Err("Unexpected content")
  {
    hide IsHarmless, NameOn, ValueOn;
    LineShape(name, value, tail);
    LineName(name, value, tail);
    LineValue(lines, line, value, tail);
  }

  // ---- Assignments with something after them ----

  /** What stands after the closing quote of a name's assignment. */
  function TailOf(tails: map<string, string>, name: string): string {
    if name in tails then tails[name] else ""
  }

  function WrittenLine(name: string, values: map<string, string>, tails: map<string, string>): string
    requires name in values
  {
    AssignmentLine(name, values[name]) + TailOf(tails, name)
  }

  function Written(names: seq<string>, values: map<string, string>, tails: map<string, string>): seq<string>
    requires forall name <- names :: name in values
  {
    if names == [] then [] else [WrittenLine(names[0], values, tails)] + Written(names[1..], values, tails)
  }

  lemma {:induction false} WrittenAt(names: seq<string>, values: map<string, string>, tails: map<string, string>)
    requires forall name <- names :: name in values
    ensures |Written(names, values, tails)| == |names|
    ensures forall i :: 0 <= i < |names| ==> Written(names, values, tails)[i] == WrittenLine(names[i], values, tails)
  {
    if names != [] {
      WrittenAt(names[1..], values, tails);
    }
  }

  /** Printing writes nothing after an assignment. */
  lemma {:induction false} AssignmentsAreWritten(names: seq<string>, values: map<string, string>)
    requires forall name <- names :: name in values
    ensures Assignments(names, values) == Written(names, values, map[])
  {
    if names != [] {
      AssignmentsAreWritten(names[1..], values);
      assert AssignmentLine(names[0], values[names[0]]) + "" == AssignmentLine(names[0], values[names[0]]);
    }
  }

  predicate AllHarmless(names: seq<string>, tails: map<string, string>) {
    forall name <- names :: IsHarmless(TailOf(tails, name))
  }

  lemma ReadNext(lines: seq<string>, line: nat, name: string, value: string, tail: string, read: Inventory)
    requires line < |lines| && lines[line] == AssignmentLine(name, value) + tail
    requires IsIdentifier(name) && name != "__proto__" && name !in read.values
    ensures ReadLines(lines, line, read) ==
      if IsHarmless(tail)
      then ReadLines(lines, line + 1, Inventory(read.values[name := Decode(Escape(value))], read.names + [name]))
      else Err("Unexpected content")
  {
    hide ReadLine, ReadLines;
    ReadOne(lines, line, name, value, tail, read);
    ReadContinues(lines, line, read);
  }

  /** The assignments of `names` stand on the lines from `line` on, and nothing after them. */
  ghost predicate StandAt(lines: seq<string>, line: nat, names: seq<string>,
                          values: map<string, string>, tails: map<string, string>) {
    && line + |names| <= |lines| && (forall name <- names :: name in values)
    && (forall i :: 0 <= i < |names| ==> lines[line + i] == WrittenLine(names[i], values, tails))
    && (forall i :: line + |names| <= i < |lines| ==> lines[i] == "")
  }

  lemma {:induction false} ReadWritten(lines: seq<string>, line: nat, names: seq<string>,
                                       values: map<string, string>, tails: map<string, string>, read: Inventory)
    requires StandAt(lines, line, names, values, tails) && Distinct(names) && AllNames(names)
    requires forall name <- names :: name !in read.values
    ensures ReadLines(lines, line, read) ==
      if AllHarmless(names, tails) then Ok(Extended(read, names, values)) else Err("Unexpected content")
    decreases |names|
  {
    hide ReadLines, IsHarmless, Decode, Escape, AssignmentLine, IsIdentifier;
    if names == [] {
      ReadBlankLines(lines, line, read);
    } else {
      var name, rest := names[0], names[1..];
      assert lines[line + 0] == WrittenLine(name, values, tails);
      ReadNext(lines, line, name, values[name], TailOf(tails, name), read);
      DistinctRest(names);
      if IsHarmless(TailOf(tails, name)) {
        var next := Inventory(read.values[name := Decode(Escape(values[name]))], read.names + [name]);
        StandNext(lines, line, names, values, tails);
        ReadWritten(lines, line + 1, rest, values, tails, next);
      }
    }
  }

  lemma StandNext(lines: seq<string>, line: nat, names: seq<string>,
                  values: map<string, string>, tails: map<string, string>)
    requires StandAt(lines, line, names, values, tails) && names != []
    ensures StandAt(lines, line + 1, names[1..], values, tails)
  {
    forall i | 0 <= i < |names[1..]| ensures lines[line + 1 + i] == WrittenLine(names[1..][i], values, tails) {
      assert lines[line + (i + 1)] == WrittenLine(names[i + 1], values, tails);
    }
  }

  lemma {:induction false} ReadBlankLines(lines: seq<string>, line: nat, read: Inventory)
    requires line <= |lines| && forall i :: line <= i < |lines| ==> lines[i] == ""
    ensures ReadLines(lines, line, read) == Ok(read)
    decreases |lines| - line
  {
    if line < |lines| {
      ReadBlankLines(lines, line + 1, read);
    }
  }

  // ---- The two printers ----

  /** The lines of the assignments; joining none still leaves one empty line. */
  function WrittenBody(names: seq<string>, values: map<string, string>, tails: map<string, string>): seq<string>
    requires forall name <- names :: name in values
  {
    if names == [] then [""] else Written(names, values, tails)
  }

  /** The lines of an inventory after `head`, as the reader splits them. */
  function Lines(
    head: seq<string>, names: seq<string>, values: map<string, string>, tails: map<string, string>): seq<string>
    requires forall name <- names :: name in values
  {
    head + WrittenBody(names, values, tails) + [""]
  }

  /** The lines a printer writes. */
  function Printed(head: seq<string>, names: seq<string>, values: map<string, string>): seq<string>
    requires forall name <- names :: name in values
  {
    Lines(head, names, values, map[])
  }

  lemma EnvironmentIsPrinted(names: seq<string>, values: map<string, string>)
    requires Lists(names, values)
    ensures SerializeEnvironment(names, values) == Join(Printed([], names, values))
  {
    AssignmentsAreWritten(names, values);
    JoinAppend(Body(names, values), "");
    assert Printed([], names, values) == Body(names, values) + [""];
    assert Join(Body(names, values)) + "\n" + "" == Join(Body(names, values)) + "\n";
  }

  lemma InventoryIsPrinted(names: seq<string>, values: map<string, string>)
    requires Lists(names, values)
    ensures SerializeInventory(names, values) == Join(Printed([HEADER], names, values))
  {
    hide Assignments, Written, Join;
    var body := Body(names, values);
    AssignmentsAreWritten(names, values);
    JoinAppend(body, "");
    JoinCons(HEADER, body + [""]);
    assert Printed([HEADER], names, values) == [HEADER] + (body + [""]);
    assert Join(body + [""]) == Join(body) + "\n";
    assert HEADER + "\n" + (Join(body) + "\n") == HEADER + "\n" + Join(body) + "\n";
  }

  /** Printable ASCII. */
  predicate IsSafe(value: string) {
    forall c <- value :: ' ' <= c < '\U{7F}'
  }

  predicate NoControl(line: string) {
    forall c <- line :: c >= ' '
  }

  predicate NoControls(tails: map<string, string>) {
    forall name <- tails :: NoControl(tails[name])
  }

  lemma WrittenHasNoControl(names: seq<string>, values: map<string, string>, tails: map<string, string>)
    requires AllNames(names) && NoControls(tails) && forall name <- names :: name in values
    ensures forall line <- Written(names, values, tails) :: NoControl(line)
  {
    var lines := Written(names, values, tails);
    WrittenAt(names, values, tails);
    forall i | 0 <= i < |lines| ensures NoControl(lines[i]) {
      LineHasNoControl(names[i], values[names[i]]);
      NoControlConcat(AssignmentLine(names[i], values[names[i]]), TailOf(tails, names[i]));
    }
  }

  lemma CleanLinesSplit(lines: seq<string>)
    requires lines != [] && forall line <- lines :: NoControl(line)
    ensures '\0' !in Join(lines) && Split(UnixNewlines(Join(lines))) == lines
  {
    forall line <- lines
      ensures '\n' !in line && '\r' !in line && '\0' !in line
    {
      assert NoControl(line);
    }
    JoinHas(lines, '\0');
    JoinHas(lines, '\r');
    NoCarriageReturn(Join(lines));
    SplitJoin(lines);
  }

  /** Comments before the assignments; `serialize` puts one there. */
  predicate IsHead(head: seq<string>) {
    forall line <- head :: IsComment(line)
  }

  predicate IsComment(line: string) {
    line != "" && line[0] == '#' && NoControl(line)
  }

  lemma LinesHaveNoControl(
    head: seq<string>, names: seq<string>, values: map<string, string>, tails: map<string, string>)
    requires Lists(names, values) && AllNames(names) && NoControls(tails) && IsHead(head)
    ensures forall line <- Lines(head, names, values, tails) :: NoControl(line)
  {
    WrittenHasNoControl(names, values, tails);
  }

  lemma LinesStand(
    head: seq<string>, names: seq<string>, values: map<string, string>, tails: map<string, string>)
    requires Lists(names, values)
    ensures var lines := Lines(head, names, values, tails);
      |head| <= |lines| && lines[..|head|] == head && StandAt(lines, |head|, names, values, tails)
  {
    hide Written, WrittenLine;
    WrittenAt(names, values, tails);
  }

  lemma HashIsSafe()
    ensures IsSafe("#")
  {}

  lemma HeaderStartIsSafe()
    ensures IsSafe(HEADER_START)
  {}

  lemma HeaderMiddleIsSafe()
    ensures IsSafe(HEADER_MIDDLE)
  {}

  lemma HeaderEndIsSafe()
    ensures IsSafe(HEADER_END)
  {}

  lemma HeaderIsSafe()
    ensures IsSafe(HEADER)
  {
    hide IsSafe;
    HeaderStartIsSafe();
    HeaderMiddleIsSafe();
    HeaderEndIsSafe();
    SafeConcat(HEADER_START, HEADER_MIDDLE);
    SafeConcat(HEADER_START + HEADER_MIDDLE, HEADER_END);
    HashIsSafe();
    SafeConcat("#", HEADER_TEXT);
  }

  lemma SafeConcat(s: string, t: string)
    requires IsSafe(s) && IsSafe(t)
    ensures IsSafe(s + t)
  {}

  lemma NoControlConcat(s: string, t: string)
    requires NoControl(s) && NoControl(t)
    ensures NoControl(s + t)
  {}

  lemma HeaderIsHead()
    ensures IsHead([HEADER])
  {
    HeaderIsSafe();
  }

  /**
   Reading the lines gives back every name, and every value as far as decoding goes, unless something
   other than a comment stands after a value.
   */
  lemma ReadsLines(
    head: seq<string>, names: seq<string>, values: map<string, string>, tails: map<string, string>)
    requires Lists(names, values) && AllNames(names) && NoControls(tails) && IsHead(head)
    ensures Read(Join(Lines(head, names, values, tails))) ==
      if AllHarmless(names, tails) then Ok(Inventory(Reread(values), names)) else Err("Unexpected content")
  {
    var lines, empty := Lines(head, names, values, tails), Inventory(map[], []);
    LinesHaveNoControl(head, names, values, tails);
    LinesStand(head, names, values, tails);
    CleanLinesSplit(lines);
    SkipHead(lines, head, |head|, empty);
    ReadWritten(lines, |head|, names, values, tails, empty);
    ExtendedIsReread(names, values);
  }

  lemma SkipComment(lines: seq<string>, line: nat, read: Inventory)
    requires line < |lines| && IsComment(lines[line])
    ensures ReadLines(lines, line, read) == ReadLines(lines, line + 1, read)
  {
    hide ReadLines;
    CommentStays(lines[line]);
    ReadContinues(lines, line, read);
  }

  lemma {:induction false} SkipHead(lines: seq<string>, head: seq<string>, n: nat, read: Inventory)
    requires IsHead(head) && n <= |head| <= |lines| && lines[..|head|] == head
    ensures ReadLines(lines, 0, read) == ReadLines(lines, n, read)
  {
    hide ReadLines;
    if n > 0 {
      SkipHead(lines, head, n - 1, read);
      assert lines[n - 1] == lines[..|head|][n - 1] == head[n - 1];
      SkipComment(lines, n - 1, read);
    }
  }

  lemma {:induction false} CommentStays(line: string)
    requires line != "" && line[0] == '#'
    ensures Trim(line) != "" && Trim(line)[0] == '#'
  {
    if IsSpace(line[|line| - 1]) {
      CommentStays(line[..|line| - 1]);
    }
  }

  lemma LineKeys(lines: seq<string>, line: nat, read: Inventory)
    requires line < |lines| && AllKeys(read.values) && ReadLine(lines, line, read).Ok?
    ensures AllKeys(ReadLine(lines, line, read).value.0.values)
    ensures ReadLine(lines, line, read).value.0.values.Keys <= read.values.Keys + NamesOn(lines[line])
  {
    if !IsBlankOrComment(lines[line]) {
      var (name, rawValue) := NameOn(lines[line]).value;
      assert IsIdentifier(name);
    }
  }

  /** The name a line assigns, if it does. */
  function NamesOn(line: string): set<string> {
    match NameOn(line)
    case Ok((name, _)) => if IsBlankOrComment(line) then {} else {name}
    case Err(_) => {}
  }

  /** The reader gives only names that stand on the lines, are identifiers and not `__proto__`. */
  lemma {:induction false} ReadNames(lines: seq<string>, line: nat, read: Inventory, names: set<string>)
    requires line <= |lines| && AllKeys(read.values) && read.values.Keys <= names
    requires forall i :: 0 <= i < |lines| ==> NamesOn(lines[i]) <= names
    requires ReadLines(lines, line, read).Ok?
    ensures AllKeys(ReadLines(lines, line, read).value.values)
    ensures ReadLines(lines, line, read).value.values.Keys <= names
    decreases |lines| - line
  {
    if line < |lines| {
      ReadContinues(lines, line, read);
      LineKeys(lines, line, read);
      hide ReadLine, NamesOn, AllKeys;
      var (next, end) := ReadLine(lines, line, read).value;
      assert NamesOn(lines[line]) <= names;
      ReadNames(lines, end + 1, next, names);
    }
  }

  ghost predicate AllKeys(values: map<string, string>) {
    forall name <- values :: IsIdentifier(name) && name != "__proto__"
  }

  lemma ReadGivesNames(text: string)
    requires Read(text).Ok?
    ensures AllKeys(Read(text).value.values)
  {
    hide ReadLines, NamesOn, AllKeys;
    var lines := Split(UnixNewlines(text));
    var names := set line, name | line in lines && name in NamesOn(line) :: name;
    forall i | 0 <= i < |lines| ensures NamesOn(lines[i]) <= names {
      assert lines[i] in lines;
    }
    NoKeys();
    ReadNames(lines, 0, Inventory(map[], []), names);
  }

  lemma NoKeys()
    ensures AllKeys(map[])
  {}

  /** Whether reading `text` gives the values back. */
  ghost predicate GivesBack(text: string, values: map<string, string>) {
    Read(text).Ok? && Read(text).value.values == values
  }

  lemma PrintedSurvives(head: seq<string>, names: seq<string>, values: map<string, string>)
    requires Lists(names, values) && IsHead(head)
    ensures GivesBack(Join(Printed(head, names, values)), values) <==> IsPrintable(values)
    ensures IsPrintable(values) ==> Read(Join(Printed(head, names, values))) == Ok(Inventory(values, names))
  {
    var text := Join(Printed(head, names, values));
    if AllNames(names) {
      ReadsLines(head, names, values, map[]);
      forall name <- values
        ensures Reread(values)[name] == values[name] <==> AllSurvive(values[name])
      {
        DecodeEscape(values[name]);
      }
      assert Reread(values) == values <==> forall name <- values :: Reread(values)[name] == values[name];
    } else if GivesBack(text, values) {
      ReadGivesNames(text);
      assert false;
    }
  }

  /**
   Both printers are undone by the reader if and only if every name is an identifier but `__proto__`
   and every value is free of control characters other than newline, carriage return and tab. The
   names then come back in the order they were printed.
   */
  lemma ReadsBackExactly(names: seq<string>, values: map<string, string>)
    requires Lists(names, values)
    ensures GivesBack(SerializeEnvironment(names, values), values) <==> IsPrintable(values)
    ensures GivesBack(SerializeInventory(names, values), values) <==> IsPrintable(values)
    ensures IsPrintable(values) ==>
      && Read(SerializeEnvironment(names, values)) == Ok(Inventory(values, names))
      && Read(SerializeInventory(names, values)) == Ok(Inventory(values, names))
  {
    EnvironmentIsPrinted(names, values);
    InventoryIsPrinted(names, values);
    PrintedSurvives([], names, values);
    HeaderIsHead();
    PrintedSurvives([HEADER], names, values);
  }
}
