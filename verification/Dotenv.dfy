/**
 The dotenv reader `parseProductionInventory`. Text is Unicode scalar values; files are read as UTF-8,
 which has no others.

 The reader looks for the end of a quoted value line by line. `ClosingIsFirstUnescaped` says which quote
 that is, and `ScanIsScanOfWhole` that looking at the whole remaining text would find the same one.
 */
module Dotenv {
  import opened Text
  import opened Wrappers

  // ---- Quoted values ----

  /**
   The first unescaped `quote`, where `escaped` says that a backslash precedes `s` and still counts.
   Only double quotes know escapes.
   */
  function Closing(s: string, quote: char, escaped: bool): (r: Option<nat>)
    ensures r.Some? ==> r.value < |s| && s[r.value] == quote
  {
    if s == "" then None
    else if quote == '"' && s[0] == '\\' && !escaped then Later(Closing(s[1..], quote, true))
    else if s[0] == quote && !escaped then Some(0)
    else Later(Closing(s[1..], quote, false))
  }

  function Later(r: Option<nat>): Option<nat> {
    if r.Some? then Some(r.value + 1) else None
  }

  /** The length of the run of backslashes that ends just before `i`. */
  function Backslashes(s: string, i: nat): nat
    requires i <= |s|
  {
    if i > 0 && s[i - 1] == '\\' then Backslashes(s, i - 1) + 1 else 0
  }

  predicate Unescaped(s: string, quote: char, i: nat)
    requires i <= |s|
  {
    quote == '"' ==> Backslashes(s, i) % 2 == 0
  }

  predicate ClosesAt(s: string, quote: char, i: nat)
    requires i < |s|
  {
    s[i] == quote && Unescaped(s, quote, i)
  }

  ghost predicate NoneCloses(s: string, quote: char, from: nat, to: nat)
    requires to <= |s|
  {
    forall k: nat :: from <= k < to ==> !ClosesAt(s, quote, k)
  }

  /** A backslash turns the run of backslashes from even to odd or back. */
  lemma AfterBackslash(s: string, quote: char, i: nat)
    requires i < |s| && s[i] == '\\' && quote == '"'
    ensures Unescaped(s, quote, i + 1) <==> !Unescaped(s, quote, i)
  {}

  /** Any other character ends the run. */
  lemma AfterOther(s: string, quote: char, i: nat)
    requires i < |s| && (s[i] != '\\' || quote != '"')
    ensures Unescaped(s, quote, i + 1)
  {}

  /** One character decides whether the search ends with it or goes on behind it. */
  lemma ClosingNext(s: string, quote: char, i: nat)
    requires i < |s| && quote != '\\'
    ensures Closing(s[i..], quote, !Unescaped(s, quote, i)) ==
      if ClosesAt(s, quote, i) then Some(0) else Later(Closing(s[i + 1..], quote, !Unescaped(s, quote, i + 1)))
  {
    assert s[i..][1..] == s[i + 1..];
    if s[i] == '\\' && quote == '"' {
      AfterBackslash(s, quote, i);
    } else {
      AfterOther(s, quote, i);
    }
    hide Backslashes;
  }

  lemma {:induction false} ClosingFrom(s: string, quote: char, i: nat)
    requires i <= |s| && quote != '\\'
    ensures var r := Closing(s[i..], quote, !Unescaped(s, quote, i));
      && (r.Some? ==> ClosesAt(s, quote, i + r.value) && NoneCloses(s, quote, i, i + r.value))
      && (r == None ==> NoneCloses(s, quote, i, |s|))
    decreases |s| - i
  {
    if i < |s| {
      hide Closing, Unescaped, ClosesAt;
      ClosingFrom(s, quote, i + 1);
      ClosingNext(s, quote, i);
    }
  }

  /** `findClosingQuote` finds the first quote that an even number of backslashes precedes. */
  lemma ClosingIsFirstUnescaped(s: string, quote: char)
    requires quote == '"' || quote == '\''
    ensures var r := Closing(s, quote, false);
      && (r.Some? ==> ClosesAt(s, quote, r.value) && NoneCloses(s, quote, 0, r.value))
      && (r == None ==> NoneCloses(s, quote, 0, |s|))
  {
    ClosingFrom(s, quote, 0);
    assert s[0..] == s;
  }

  /** Text that follows does not move a quote that was found. */
  lemma {:induction false} ClosingStable(s: string, more: string, quote: char, escaped: bool)
    requires Closing(s, quote, escaped).Some?
    ensures Closing(s + more, quote, escaped) == Closing(s, quote, escaped)
  {
    assert (s + more)[1..] == s[1..] + more;
    if quote == '"' && s[0] == '\\' && !escaped {
      ClosingStable(s[1..], more, quote, true);
    } else if !(s[0] == quote && !escaped) {
      ClosingStable(s[1..], more, quote, false);
    }
  }

  /** `decodeDoubleQuotedValue` */
  function Decode(s: string): string {
    if s == "" then ""
    else if s[0] != '\\' || |s| == 1 then [s[0]] + Decode(s[1..])
    else Replacement(s[1]) + Decode(s[2..])
  }

  function Replacement(next: char): string {
    match next
    case 'n' => "\n"
    case 'r' => "\r"
    case 't' => "\t"
    case '\\' => "\\"
    case '"' => "\""
    case _ => ['\\', next]
  }

  /** Five escapes are decoded; any other backslash stays, with what follows it. */
  lemma EscapesDecoded(c: char, rest: string)
    ensures Decode(['\\', c] + rest) ==
      (if c == 'n' then "\n" else if c == 'r' then "\r" else if c == 't' then "\t"
       else if c == '\\' || c == '"' then [c] else ['\\', c]) + Decode(rest)
    ensures c != '\\' || rest == "" ==> Decode([c] + rest) == [c] + Decode(rest)
  {
    assert (['\\', c] + rest)[2..] == rest;
    assert ([c] + rest)[1..] == rest;
  }

  method FindClosingQuote(input: string, quote: char) returns (r: int)
    ensures r == match Closing(input, quote, false) case Some(k) => k case None => -1
  {
    var escaped := false;
    var index := 0;
    while index < |input|
      invariant 0 <= index <= |input|
      invariant Closing(input, quote, false).Some? <==> Closing(input[index..], quote, escaped).Some?
      invariant Closing(input, quote, false).Some? ==>
        Closing(input, quote, false).value == index + Closing(input[index..], quote, escaped).value
    {
      var character := input[index];
      assert input[index..][1..] == input[index + 1..];
      if quote == '"' && character == '\\' && !escaped {
        escaped := true;
        index := index + 1;
        continue;
      }
      if character == quote && !escaped {
        return index;
      }
      escaped := false;
      index := index + 1;
    }
    return -1;
  }

  method DecodeDoubleQuotedValue(value: string) returns (decoded: string)
    ensures decoded == Decode(value)
  {
    decoded := "";
    var index := 0;
    assert value[0..] == value;
    while index < |value|
      invariant 0 <= index <= |value|
      invariant decoded + Decode(value[index..]) == Decode(value)
    {
      var character := value[index];
      DecodeStep(value, index, decoded);
      if character != '\\' || index + 1 == |value| {
        decoded := decoded + [character];
        index := index + 1;
      } else {
        decoded := decoded + Replacement(value[index + 1]);
        index := index + 2;
      }
    }
  }

  lemma DecodeStep(value: string, index: nat, decoded: string)
    requires index < |value|
    ensures value[index] != '\\' || index + 1 == |value| ==>
      decoded + Decode(value[index..]) == decoded + [value[index]] + Decode(value[index + 1..])
    ensures value[index] == '\\' && index + 1 < |value| ==>
      decoded + Decode(value[index..]) == decoded + Replacement(value[index + 1]) + Decode(value[index + 2..])
  {
    assert value[index..][1..] == value[index + 1..];
    if index + 1 < |value| {
      assert value[index..][2..] == value[index + 2..];
    }
  }

  // ---- Values over several lines ----

  /** What a quoted value is, from its opening quote on: its raw text, the rest of its last line. */
  datatype Quoted = Closed(raw: string, suffix: string, endingLine: nat) | Unterminated

  /** Scanning `content`, and one more line at a time while no closing quote is in sight. */
  function Scan(lines: seq<string>, line: nat, content: string, quote: char): Quoted
    requires line < |lines|
    decreases |lines| - line
  {
    match Closing(content, quote, false)
    case Some(k) => Closed(content[..k], content[k + 1..], line)
    case None =>
      if line + 1 >= |lines| then Unterminated
      else Scan(lines, line + 1, content + "\n" + lines[line + 1], quote)
  }

  /** `content` and the lines after `line`, up to and with `last`. */
  function UpTo(lines: seq<string>, line: nat, content: string, last: nat): string
    requires line <= last < |lines|
    decreases last
  {
    if last == line then content else UpTo(lines, line, content, last - 1) + "\n" + lines[last]
  }

  lemma {:induction false} UpToStep(lines: seq<string>, line: nat, content: string, last: nat)
    requires line < last < |lines|
    ensures UpTo(lines, line, content, last) == UpTo(lines, line + 1, content + "\n" + lines[line + 1], last)
    decreases last
  {
    if last > line + 1 {
      UpToStep(lines, line, content, last - 1);
    }
  }

  /** Scanning line by line finds what scanning the whole rest of the file finds, on the line it is on. */
  lemma {:induction false} ScanIsScanOfWhole(lines: seq<string>, line: nat, content: string, quote: char)
    requires line < |lines|
    ensures var whole := UpTo(lines, line, content, |lines| - 1);
      match Scan(lines, line, content, quote)
      case Unterminated => Closing(whole, quote, false) == None
      case Closed(raw, suffix, end) =>
        && Closing(whole, quote, false) == Some(|raw|) && whole[..|raw|] == raw
        && line <= end < |lines|
        && UpTo(lines, line, content, end) == raw + [quote] + suffix
        && (line < end ==> Closing(UpTo(lines, line, content, end - 1), quote, false) == None)
    decreases |lines| - line
  {
    hide Closing;
    var r := Closing(content, quote, false);
    if r.Some? {
      UpToExtends(lines, line, content, |lines| - 1, quote);
      assert content == content[..r.value] + [quote] + content[r.value + 1..];
    } else if line + 1 < |lines| {
      var next := content + "\n" + lines[line + 1];
      ScanIsScanOfWhole(lines, line + 1, next, quote);
      UpToStep(lines, line, content, |lines| - 1);
      var q := Scan(lines, line + 1, next, quote);
      if q.Closed? {
        UpToStep(lines, line, content, q.endingLine);
        if line + 1 < q.endingLine {
          UpToStep(lines, line, content, q.endingLine - 1);
        }
      }
    }
  }

  lemma {:induction false} UpToExtends(lines: seq<string>, line: nat, content: string, last: nat, quote: char)
    requires line <= last < |lines| && Closing(content, quote, false).Some?
    ensures Closing(UpTo(lines, line, content, last), quote, false) == Closing(content, quote, false)
    ensures StartsWith(UpTo(lines, line, content, last), content)
    decreases last
  {
    if last > line {
      UpToExtends(lines, line, content, last - 1, quote);
      var shorter := UpTo(lines, line, content, last - 1);
      assert UpTo(lines, line, content, last) == shorter + ("\n" + lines[last]);
      ClosingStable(shorter, "\n" + lines[last], quote, false);
    }
  }

  // ---- The reader ----

  datatype Inventory = Inventory(values: map<string, string>, names: seq<string>)

  predicate IsNameStart(c: char) {
    'A' <= c <= 'Z' || 'a' <= c <= 'z' || c == '_'
  }

  predicate IsNamePart(c: char) {
    IsNameStart(c) || '0' <= c <= '9'
  }

  predicate IsIdentifier(name: string) {
    name != "" && IsNameStart(name[0]) && forall c <- name :: IsNamePart(c)
  }

  /** Assigning a string to the property `__proto__` of an object has no effect. */
  function Assign(values: map<string, string>, name: string, value: string): map<string, string> {
    if name == "__proto__" then values else values[name := value]
  }

  predicate IsBlankOrComment(line: string) {
    Trim(line) == "" || Trim(line)[0] == '#'
  }

  /** `parseQuotedValue`: the value and the line it ends on. */
  function QuotedValue(lines: seq<string>, line: nat, initial: string): Result<(string, nat)>
    requires line < |lines| && initial != ""
  {
    match Scan(lines, line, initial[1..], initial[0])
    case Unterminated => Err("Unterminated quoted value")
    case Closed(raw, suffix, end) =>
      if Trim(suffix) != "" && Trim(suffix)[0] != '#' then Err("Unexpected content")
      else Ok((if initial[0] == '"' then Decode(raw) else raw, end))
  }

  function UnquotedValue(rawValue: string): string {
    match IndexOf(rawValue, '#')
    case Some(comment) => Trim(rawValue[..comment])
    case None => Trim(rawValue)
  }

  /** The name and the raw value an assignment starts with. */
  function NameOn(line: string): (r: Result<(string, string)>)
    ensures r.Ok? ==> IsIdentifier(r.value.0)
  {
    match IndexOf(line, '=')
    case None => Err("Malformed assignment")
    case Some(separator) =>
      if separator < 1 then Err("Malformed assignment")
      else if !IsIdentifier(Trim(line[..separator])) then Err("Invalid variable name")
      else Ok((Trim(line[..separator]), Trim(line[separator + 1..])))
  }

  predicate IsQuoted(rawValue: string) {
    rawValue != "" && (rawValue[0] == '"' || rawValue[0] == '\'')
  }

  /** The value that starts on `line`, and the line it ends on. */
  function ValueOn(lines: seq<string>, line: nat, rawValue: string): (r: Result<(string, nat)>)
    requires line < |lines|
    ensures r.Ok? ==> line <= r.value.1 < |lines|
  {
    if IsQuoted(rawValue) then
      ScanIsScanOfWhole(lines, line, rawValue[1..], rawValue[0]);
      QuotedValue(lines, line, rawValue)
    else
      Ok((UnquotedValue(rawValue), line))
  }

  /** The assignment that starts on a line, added to what is read, and the last line of it. */
  function ReadAssignment(lines: seq<string>, line: nat, read: Inventory): (r: Result<(Inventory, nat)>)
    requires line < |lines|
    ensures r.Ok? ==> line <= r.value.1 < |lines|
  {
    match NameOn(lines[line])
    case Err(reason) => Err(reason)
    case Ok((name, rawValue)) =>
      if name in read.values then Err("Duplicate variable name")
      else
        match ValueOn(lines, line, rawValue)
        case Err(reason) => Err(reason)
        case Ok((value, end)) => Ok((Inventory(Assign(read.values, name, value), read.names + [name]), end))
  }

  /** Blank lines and comments say nothing. */
  function ReadLine(lines: seq<string>, line: nat, read: Inventory): (r: Result<(Inventory, nat)>)
    requires line < |lines|
    ensures r.Ok? ==> line <= r.value.1 < |lines|
  {
    if IsBlankOrComment(lines[line]) then Ok((read, line)) else ReadAssignment(lines, line, read)
  }

  function ReadLines(lines: seq<string>, line: nat, read: Inventory): Result<Inventory>
    requires line <= |lines|
    decreases |lines| - line
  {
    if line == |lines| then Ok(read)
    else
      match ReadLine(lines, line, read)
      case Err(reason) => Err(reason)
      case Ok((next, end)) => ReadLines(lines, end + 1, next)
  }

  lemma ReadContinues(lines: seq<string>, line: nat, read: Inventory)
    requires line < |lines|
    ensures ReadLines(lines, line, read) ==
      match ReadLine(lines, line, read)
      case Err(reason) => Err(reason)
      case Ok((next, end)) => ReadLines(lines, end + 1, next)
  {}

  /** `parseProductionInventory` */
  function Read(source: string): Result<Inventory> {
    if '\0' in source then Err("NUL byte")
    else ReadLines(Split(UnixNewlines(source)), 0, Inventory(map[], []))
  }

  method ParseQuotedValue(lines: seq<string>, startingLine: nat, initial: string)
    returns (r: Result<(string, nat)>)
    requires startingLine < |lines| && IsQuoted(initial)
    ensures r == QuotedValue(lines, startingLine, initial)
  {
    var quote := initial[0];
    var content := initial[1..];
    var line := startingLine;
    while true
      invariant startingLine <= line < |lines|
      invariant Scan(lines, line, content, quote) == Scan(lines, startingLine, initial[1..], quote)
      decreases |lines| - line
    {
      var closing := FindClosingQuote(content, quote);
      if closing >= 0 {
        var suffix := Trim(content[closing + 1..]);
        if suffix != "" && suffix[0] != '#' {
          return Err("Unexpected content");
        }
        var rawValue := content[..closing];
        if quote == '"' {
          rawValue := DecodeDoubleQuotedValue(rawValue);
        }
        return Ok((rawValue, line));
      }
      line := line + 1;
      if line >= |lines| {
        return Err("Unterminated quoted value");
      }
      content := content + "\n" + lines[line];
    }
  }

  method ParseProductionInventory(source: string) returns (r: Result<Inventory>)
    ensures r == Read(source)
  {
    if '\0' in source {
      return Err("NUL byte");
    }
    r := ParseLines(Split(UnixNewlines(source)));
  }

  method ParseLines(lines: seq<string>) returns (r: Result<Inventory>)
    ensures r == ReadLines(lines, 0, Inventory(map[], []))
  {
    hide ReadLine;
    var read := Inventory(map[], []);
    var line := 0;
    ghost var whole := ReadLines(lines, 0, read);
    while line < |lines|
      invariant 0 <= line <= |lines|
      invariant ReadLines(lines, line, read) == whole
      decreases |lines| - line
    {
      ReadContinues(lines, line, read);
      var next := ParseLine(lines, line, read);
      if next.Err? {
        return Err(next.reason);
      }
      read, line := next.value.0, next.value.1 + 1;
    }
    return Ok(read);
  }

  method ParseLine(lines: seq<string>, line: nat, read: Inventory) returns (r: Result<(Inventory, nat)>)
    requires line < |lines|
    ensures r == ReadLine(lines, line, read)
  {
    var trimmed := Trim(lines[line]);
    if trimmed == "" || trimmed[0] == '#' {
      return Ok((read, line));
    }
    r := ParseAssignment(lines, line, read);
  }

  method ParseAssignment(lines: seq<string>, line: nat, read: Inventory) returns (r: Result<(Inventory, nat)>)
    requires line < |lines|
    ensures r == ReadAssignment(lines, line, read)
  {
    var assignment := ParseName(lines[line]);
    if assignment.Err? {
      return Err(assignment.reason);
    }
    var (name, rawValue) := assignment.value;
    if name in read.values {
      return Err("Duplicate variable name");
    }
    var parsed := ParseValue(lines, line, rawValue);
    if parsed.Err? {
      return Err(parsed.reason);
    }
    return Ok((Inventory(Assign(read.values, name, parsed.value.0), read.names + [name]), parsed.value.1));
  }

  method ParseName(rawLine: string) returns (r: Result<(string, string)>)
    ensures r == NameOn(rawLine)
  {
    var separator := IndexOf(rawLine, '=');
    if separator == None || separator.value < 1 {
      return Err("Malformed assignment");
    }
    var name := Trim(rawLine[..separator.value]);
    if !IsIdentifier(name) {
      return Err("Invalid variable name");
    }
    return Ok((name, Trim(rawLine[separator.value + 1..])));
  }

  method ParseValue(lines: seq<string>, line: nat, rawValue: string) returns (r: Result<(string, nat)>)
    requires line < |lines|
    ensures r == ValueOn(lines, line, rawValue)
  {
    if IsQuoted(rawValue) {
      r := ParseQuotedValue(lines, line, rawValue);
    } else {
      r := Ok((UnquotedValue(rawValue), line));
    }
  }
}
