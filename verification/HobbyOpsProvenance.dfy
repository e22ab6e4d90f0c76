/**
 `renderHobbyOpsProvenanceInventory`: two assignments of an inventory are rewritten in the text itself,
 by a regular expression over its lines, without reading the rest.

 The expression and the reader do not agree on what a line is: U+2028 and U+2029 end one only for the
 expression. `RenderSucceedsExactly` says for which printed inventories the rewrite succeeds all the same,
 and `RenderIsMapUpdate` that its result then reads as the map with the two values replaced.
 */
module HobbyOpsProvenance {
  import opened Collections
  import opened Dotenv
  import opened Printer
  import opened Text
  import opened Wrappers

  const HOST_NAME := "SOL_HOBBY_PUBLIC_DEPLOYMENT_HOST"
  const ID_NAME := "SOL_HOBBY_PUBLIC_DEPLOYMENT_ID"

  /** Where `^` and `$` match with the flag `m`, and what `.` does not match. */
  predicate IsLineTerminator(c: char) {
    c == '\n' || c == '\r' || IsSeparator(c)
  }

  predicate IsSeparator(c: char) {
    c == '\U{2028}' || c == '\U{2029}'
  }

  predicate IsBlank(c: char) {
    c == '\t' || c == ' '
  }

  function SkipBlanks(s: string): string {
    if s != "" && IsBlank(s[0]) then SkipBlanks(s[1..]) else s
  }

  /** A line the expression `^[\t ]*name[\t ]*=.*$` matches. */
  predicate Matches(line: string, name: string) {
    var start := SkipBlanks(line);
    StartsWith(start, name) && StartsWith(SkipBlanks(start[|name|..]), "=")
  }

  /** How often the expression matches: at most once a line, and always the whole of it. */
  function MatchCount(line: string, source: string, name: string): nat
    decreases |source|
  {
    if source == "" then if Matches(line, name) then 1 else 0
    else if IsLineTerminator(source[0]) then
      (if Matches(line, name) then 1 else 0) + MatchCount("", source[1..], name)
    else MatchCount(line + [source[0]], source[1..], name)
  }

  /** `source` after the beginning `line` of its first line, with every match replaced. */
  function ReplaceAll(line: string, source: string, name: string, replacement: string): string
    decreases |source|
  {
    var done := if Matches(line, name) then replacement else line;
    if source == "" then done
    else if IsLineTerminator(source[0]) then done + [source[0]] + ReplaceAll("", source[1..], name, replacement)
    else ReplaceAll(line + [source[0]], source[1..], name, replacement)
  }

  /** `replaceSingleAssignment`, of a value without `$`, which `replace` would interpret. */
  function ReplaceSingleAssignment(source: string, name: string, value: string): Result<string>
    requires '$' !in value
  {
    if MatchCount("", source, name) != 1 then Err("not exactly one assignment")
    else Ok(ReplaceAll("", source, name, AssignmentLine(name, value)))
  }

  predicate IsLabelChar(c: char) {
    'a' <= c <= 'z' || '0' <= c <= '9' || c == '-'
  }

  /** Text the expression `(?:[a-z0-9-]+\.)*` matches: labels, each followed by a dot. */
  predicate AreLabels(s: string, labelStarted: bool) {
    if s == "" then !labelStarted
    else if s[0] == '.' then labelStarted && AreLabels(s[1..], false)
    else IsLabelChar(s[0]) && AreLabels(s[1..], true)
  }

  const DOMAIN := "vercel.app"

  predicate IsDeploymentHost(host: string) {
    |host| >= |DOMAIN| && host[|host| - |DOMAIN|..] == DOMAIN && AreLabels(host[..|host| - |DOMAIN|], false)
  }

  predicate IsDeploymentId(id: string) {
    StartsWith(id, "dpl_") && |id| > 4 && forall c <- id[4..] :: IsNamePart(c) && c != '_'
  }

  // ---- The expressions ----

  /** Labels, each with a dot after it. */
  function Dotted(labels: seq<string>): string {
    if labels == [] then "" else labels[0] + "." + Dotted(labels[1..])
  }

  predicate IsLabel(part: string) {
    part != "" && forall c <- part :: 'a' <= c <= 'z' || '0' <= c <= '9' || c == '-'
  }

  lemma {:induction false} LabelsAreScanned(part: string, started: bool, rest: string)
    requires (forall c <- part :: 'a' <= c <= 'z' || '0' <= c <= '9' || c == '-') && (started || part != "")
    ensures AreLabels(part + "." + rest, started) <==> AreLabels(rest, false)
  {
    var s := part + "." + rest;
    if part == "" {
      assert s[1..] == rest;
    } else {
      assert part[0] in part && forall c <- part[1..] :: c in part;
      assert s[1..] == part[1..] + "." + rest;
      LabelsAreScanned(part[1..], true, rest);
    }
  }

  lemma {:induction false} DottedAreLabels(labels: seq<string>)
    requires forall part <- labels :: IsLabel(part)
    ensures AreLabels(Dotted(labels), false)
  {
    if labels != [] {
      assert labels[0] in labels && forall part <- labels[1..] :: part in labels;
      DottedAreLabels(labels[1..]);
      LabelsAreScanned(labels[0], false, Dotted(labels[1..]));
    }
  }

  /** The labels of a text that is made of them; `begun` are the characters of the first one so far. */
  lemma {:induction false} LabelsAreDotted(s: string, begun: string) returns (labels: seq<string>)
    requires AreLabels(s, begun != "") && (begun == "" || IsLabel(begun))
    ensures (forall part <- labels :: IsLabel(part)) && Dotted(labels) == begun + s
  {
    if s == "" {
      labels := [];
      assert begun + s == "";
    } else if s[0] == '.' {
      var rest := LabelsAreDotted(s[1..], "");
      labels := [begun] + rest;
      assert labels[1..] == rest && begun + "." + s[1..] == begun + s && "" + s[1..] == s[1..];
    } else {
      labels := LabelsAreDotted(s[1..], begun + [s[0]]);
      assert begun + [s[0]] + s[1..] == begun + s;
    }
  }

  /** The hosts are those of the domain: it alone, or behind any labels. */
  lemma HostsAre(host: string)
    ensures IsDeploymentHost(host) <==>
      exists labels: seq<string> :: (forall part <- labels :: IsLabel(part)) && host == Dotted(labels) + "vercel.app"
  {
    if IsDeploymentHost(host) {
      var front := host[..|host| - |DOMAIN|];
      var labels := LabelsAreDotted(front, "");
      assert "" + front == front && host == front + DOMAIN;
    }
    if labels: seq<string> :| (forall part <- labels :: IsLabel(part)) && host == Dotted(labels) + "vercel.app" {
      DottedAreLabels(labels);
      assert host[..|host| - |DOMAIN|] == Dotted(labels);
    }
  }

  /** The IDs are the prefix and letters and digits, at least one. */
  lemma IdsAre(id: string)
    ensures IsDeploymentId(id) <==> exists rest: string :: IsAlphanumeric(rest) && id == "dpl_" + rest
  {
    if IsDeploymentId(id) {
      assert id == "dpl_" + id[4..];
    }
    if rest: string :| IsAlphanumeric(rest) && id == "dpl_" + rest {
      assert id[4..] == rest;
    }
  }

  predicate IsAlphanumeric(s: string) {
    s != "" && forall c <- s :: 'A' <= c <= 'Z' || 'a' <= c <= 'z' || '0' <= c <= '9'
  }

  predicate AreBlanks(s: string) {
    forall c <- s :: c == '\t' || c == ' '
  }

  lemma {:induction false} BlanksAreSkipped(blanks: string, s: string)
    requires AreBlanks(blanks) && (s != "" ==> s[0] != '\t' && s[0] != ' ')
    ensures SkipBlanks(blanks + s) == s
  {
    if blanks == "" {
      assert blanks + s == s;
    } else {
      assert blanks[0] in blanks && forall c <- blanks[1..] :: c in blanks;
      assert (blanks + s)[1..] == blanks[1..] + s;
      BlanksAreSkipped(blanks[1..], s);
    }
  }

  lemma {:induction false} SkippedAreBlanks(s: string) returns (blanks: string)
    ensures AreBlanks(blanks) && s == blanks + SkipBlanks(s)
  {
    if s != "" && IsBlank(s[0]) {
      var rest := SkippedAreBlanks(s[1..]);
      blanks := [s[0]] + rest;
      assert blanks + SkipBlanks(s) == [s[0]] + (rest + SkipBlanks(s));
    } else {
      blanks := "";
      assert "" + SkipBlanks(s) == SkipBlanks(s);
    }
  }

  /** A line matches if it is the name, between blanks, and an equals sign. */
  lemma MatchesExactly(line: string, name: string)
    requires IsIdentifier(name)
    ensures Matches(line, name) <==>
      exists indent: string, gap: string, after: string ::
        AreBlanks(indent) && AreBlanks(gap) && line == indent + name + gap + "=" + after
  {
    if Matches(line, name) {
      var indent, gap, after := MatchedParts(line, name);
    }
    hide Matches, AreBlanks;
    if indent: string, gap: string, after: string :|
      AreBlanks(indent) && AreBlanks(gap) && line == indent + name + gap + "=" + after
    {
      MatchesBetween(indent, name, gap, after);
    }
  }

  lemma MatchedParts(line: string, name: string) returns (indent: string, gap: string, after: string)
    requires Matches(line, name)
    ensures AreBlanks(indent) && AreBlanks(gap) && line == indent + name + gap + "=" + after
  {
    var start := SkipBlanks(line);
    indent := SkippedAreBlanks(line);
    gap := SkippedAreBlanks(start[|name|..]);
    after := SkipBlanks(start[|name|..])[1..];
    hide SkipBlanks, AreBlanks;
    assert start == name + start[|name|..];
    assert SkipBlanks(start[|name|..]) == "=" + after;
  }

  lemma MatchesBetween(indent: string, name: string, gap: string, after: string)
    requires IsIdentifier(name) && AreBlanks(indent) && AreBlanks(gap)
    ensures Matches(indent + name + gap + "=" + after, name)
  {
    var start := name + gap + "=" + after;
    assert indent + name + gap + "=" + after == indent + start;
    BlanksAreSkipped(indent, start);
    assert start[..|name|] == name && start[|name|..] == gap + ("=" + after);
    BlanksAreSkipped(gap, "=" + after);
    assert ("=" + after)[..1] == "=";
  }

  // ---- The rewrite ----

  /** Whatever the source is, a result holds the new provenance for its reader. */
  function Render(source: string, host: string, id: string): (rendered: Result<string>)
    ensures rendered.Ok? ==>
      && Read(rendered.value).Ok?
      && HOST_NAME in Read(rendered.value).value.values && ID_NAME in Read(rendered.value).value.values
      && Read(rendered.value).value.values[HOST_NAME] == host && Read(rendered.value).value.values[ID_NAME] == id
  {
    if !IsDeploymentHost(host) then Err("malformed host")
    else if !IsDeploymentId(id) then Err("malformed id")
    else
      ArgumentsAreSafe(host, id);
      match ReplaceSingleAssignment(source, HOST_NAME, host)
      case Err(reason) => Err(reason)
      case Ok(withHost) =>
        match ReplaceSingleAssignment(withHost, ID_NAME, id)
        case Err(reason) => Err(reason)
        case Ok(updated) =>
          match Read(updated)
          case Err(_) => Err("could not be parsed safely")
          case Ok(parsed) =>
            if Holds(parsed.values, HOST_NAME, host) && Holds(parsed.values, ID_NAME, id) then Ok(updated)
            else Err("lost deployment provenance")
  }

  predicate Holds(values: map<string, string>, name: string, value: string) {
    name in values && values[name] == value
  }

  // ---- Line by line ----

  predicate OneLine(line: string) {
    forall c <- line :: !IsLineTerminator(c)
  }

  function LinesCount(lines: seq<string>, name: string): nat {
    if lines == [] then 0 else MatchCount("", lines[0], name) + LinesCount(lines[1..], name)
  }

  function LinesReplaced(lines: seq<string>, name: string, replacement: string): seq<string> {
    if lines == [] then []
    else [ReplaceAll("", lines[0], name, replacement)] + LinesReplaced(lines[1..], name, replacement)
  }

  /** The characters that end a line for the expression, and no others, begin a new one. */
  predicate EndsLine(c: char) {
    c == '\n' || c == '\r' || c == '\U{2028}' || c == '\U{2029}'
  }

  lemma {:induction false} CountPastLine(line: string, rest: string, end: char, source: string, name: string)
    requires EndsLine(end)
    ensures MatchCount(line, rest + [end] + source, name) == MatchCount(line, rest, name) + MatchCount("", source, name)
    decreases |rest|
  {
    var all := rest + [end] + source;
    if rest == "" {
      assert all[1..] == source;
    } else {
      assert all[0] == rest[0] && all[1..] == rest[1..] + [end] + source;
      CountPastLine(if IsLineTerminator(rest[0]) then "" else line + [rest[0]], rest[1..], end, source, name);
    }
  }

  lemma {:induction false} ReplacePastLine(
    line: string, rest: string, end: char, source: string, name: string, repl: string)
    requires EndsLine(end)
    ensures ReplaceAll(line, rest + [end] + source, name, repl)
         == ReplaceAll(line, rest, name, repl) + [end] + ReplaceAll("", source, name, repl)
    decreases |rest|
  {
    var all := rest + [end] + source;
    if rest == "" {
      assert all[1..] == source;
    } else {
      assert all[0] == rest[0] && all[1..] == rest[1..] + [end] + source;
      ReplacePastLine(if IsLineTerminator(rest[0]) then "" else line + [rest[0]], rest[1..], end, source, name, repl);
    }
  }

  /** Text without them is one line: replaced as a whole or not at all. */
  lemma {:induction false} OneLineOfText(line: string, text: string, name: string, repl: string)
    requires forall c <- text :: !EndsLine(c)
    ensures MatchCount(line, text, name) == if Matches(line + text, name) then 1 else 0
    ensures ReplaceAll(line, text, name, repl) == if Matches(line + text, name) then repl else line + text
    decreases |text|
  {
    hide Matches;
    if text == "" {
      assert line + text == line;
    } else {
      assert text[0] in text && forall c <- text[1..] :: c in text;
      OneLineOfText(line + [text[0]], text[1..], name, repl);
      assert line + [text[0]] + text[1..] == line + text;
    }
  }

  /** On joined lines the expression works line by line. */
  lemma {:induction false} ReplaceInJoin(lines: seq<string>, name: string, repl: string)
    requires lines != []
    ensures MatchCount("", Join(lines), name) == LinesCount(lines, name)
    ensures ReplaceAll("", Join(lines), name, repl) == Join(LinesReplaced(lines, name, repl))
  {
    if |lines| == 1 {
      assert lines[1..] == [];
    } else {
      ReplaceInJoin(lines[1..], name, repl);
      CountPastLine("", lines[0], '\n', Join(lines[1..]), name);
      ReplacePastLine("", lines[0], '\n', Join(lines[1..]), name, repl);
      assert LinesReplaced(lines, name, repl)[1..] == LinesReplaced(lines[1..], name, repl);
    }
  }

  lemma {:induction false} CountConcat(a: seq<string>, b: seq<string>, name: string)
    ensures LinesCount(a + b, name) == LinesCount(a, name) + LinesCount(b, name)
  {
    hide MatchCount;
    if a == [] {
      assert a + b == b;
    } else {
      CountConcat(a[1..], b, name);
      assert (a + b)[1..] == a[1..] + b;
    }
  }

  lemma {:induction false} ReplaceConcat(a: seq<string>, b: seq<string>, name: string, repl: string)
    ensures LinesReplaced(a + b, name, repl) == LinesReplaced(a, name, repl) + LinesReplaced(b, name, repl)
  {
    hide ReplaceAll;
    if a == [] {
      assert a + b == b;
    } else {
      ReplaceConcat(a[1..], b, name, repl);
      assert (a + b)[1..] == a[1..] + b;
    }
  }

  lemma {:induction false} ReplacedAt(lines: seq<string>, name: string, repl: string)
    ensures |LinesReplaced(lines, name, repl)| == |lines|
    ensures forall i :: 0 <= i < |lines| ==> LinesReplaced(lines, name, repl)[i] == ReplaceAll("", lines[i], name, repl)
  {
    if lines != [] {
      ReplacedAt(lines[1..], name, repl);
    }
  }

  // ---- What follows a separator in a line ----

  /** `s` up to the first place where a line of the expression ends. */
  function First(s: string): string {
    if s == "" || IsLineTerminator(s[0]) then "" else [s[0]] + First(s[1..])
  }

  /** `s` from there on. */
  function Rest(s: string): string {
    if s == "" || IsLineTerminator(s[0]) then s else Rest(s[1..])
  }

  /** How often the expression matches after a separator. */
  function LaterCount(s: string, name: string): nat {
    if Rest(s) == "" then 0 else MatchCount("", Rest(s)[1..], name)
  }

  lemma {:induction false} CountSplit(line: string, s: string, name: string)
    ensures MatchCount(line, s, name) == (if Matches(line + First(s), name) then 1 else 0) + LaterCount(s, name)
    decreases |s|
  {
    if s == "" || IsLineTerminator(s[0]) {
      assert line + "" == line;
    } else {
      CountSplit(line + [s[0]], s[1..], name);
      assert line + [s[0]] + First(s[1..]) == line + First(s);
    }
  }

  lemma {:induction false} UnmatchedStays(line: string, s: string, name: string, repl: string)
    requires MatchCount(line, s, name) == 0
    ensures ReplaceAll(line, s, name, repl) == line + s
    decreases |s|
  {
    if s == "" {
      assert line + s == line;
    } else if IsLineTerminator(s[0]) {
      UnmatchedStays("", s[1..], name, repl);
      assert line + [s[0]] + ("" + s[1..]) == line + s;
    } else {
      UnmatchedStays(line + [s[0]], s[1..], name, repl);
      assert line + [s[0]] + s[1..] == line + s;
    }
  }

  lemma {:induction false} ReplaceSplit(line: string, s: string, name: string, repl: string)
    requires LaterCount(s, name) == 0
    ensures ReplaceAll(line, s, name, repl)
         == (if Matches(line + First(s), name) then repl else line + First(s)) + Rest(s)
    decreases |s|
  {
    hide Matches;
    var done := if Matches(line, name) then repl else line;
    if s == "" {
      assert line + "" == line && done + "" == done;
    } else if IsLineTerminator(s[0]) {
      assert line + "" == line && s == [s[0]] + s[1..];
      UnmatchedStays("", s[1..], name, repl);
      assert done + [s[0]] + ("" + s[1..]) == done + s;
    } else {
      ReplaceSplit(line + [s[0]], s[1..], name, repl);
      assert line + [s[0]] + First(s[1..]) == line + First(s);
    }
  }

  lemma {:induction false} RestAfter(a: string, b: string)
    requires OneLine(a)
    ensures First(a + b) == a + First(b) && Rest(a + b) == Rest(b)
  {
    if a == "" {
      assert a + b == b && a + First(b) == First(b);
    } else {
      assert a == [a[0]] + a[1..] && (a + b)[1..] == a[1..] + b;
      RestAfter(a[1..], b);
    }
  }

  lemma {:induction false} RestOfRest(s: string)
    ensures Rest(Rest(s)) == Rest(s)
    ensures Rest(s) == "" <==> OneLine(s)
  {
    if s != "" {
      assert s == [s[0]] + s[1..];
      if !IsLineTerminator(s[0]) {
        RestOfRest(s[1..]);
      }
    }
  }

  // ---- An assignment ----

  /** An assignment matches exactly when it assigns the name, whatever it assigns. */
  lemma MatchesOwnName(own: string, after: string, name: string)
    requires IsIdentifier(own) && IsIdentifier(name)
    ensures Matches(own + "=" + after, name) <==> own == name
  {
    var line := own + "=" + after;
    assert SkipBlanks(line) == line;
    if |own| < |name| {
      assert name[|own|] in name;
      if |name| <= |line| {
        assert line[..|name|][|own|] == '=';
      }
    } else if |name| < |own| {
      assert line[|name|..][0] == own[|name|] && own[|name|] in own;
    } else {
      assert line[..|name|] == own && line[|name|..][0] == '=';
    }
  }

  /** What a line has after `name="`. */
  function Content(value: string, tail: string): string {
    Escape(value) + "\"" + tail
  }

  lemma AssignmentStart(own: string, value: string, tail: string)
    requires IsIdentifier(own)
    ensures AssignmentLine(own, value) + tail == own + "=\"" + Content(value, tail)
    ensures OneLine(own + "=\"")
    ensures First(AssignmentLine(own, value) + tail) == own + "=" + ("\"" + First(Content(value, tail)))
    ensures Rest(AssignmentLine(own, value) + tail) == Rest(Content(value, tail))
  {
    hide First, Rest, Escape;
    var start := own + "=\"";
    assert AssignmentLine(own, value) + tail == start + Content(value, tail);
    RestAfter(start, Content(value, tail));
    assert start + First(Content(value, tail)) == own + "=" + ("\"" + First(Content(value, tail)));
  }

  lemma AssignmentCount(own: string, value: string, tail: string, name: string)
    requires IsIdentifier(own) && IsIdentifier(name)
    ensures MatchCount("", AssignmentLine(own, value) + tail, name)
         == (if own == name then 1 else 0) + LaterCount(Content(value, tail), name)
  {
    hide First, Rest, Matches, Escape;
    var line := AssignmentLine(own, value) + tail;
    AssignmentStart(own, value, tail);
    CountSplit("", line, name);
    assert "" + First(line) == First(line);
    MatchesOwnName(own, "\"" + First(Content(value, tail)), name);
  }

  lemma AssignmentReplaced(own: string, value: string, tail: string, name: string, repl: string)
    requires IsIdentifier(own) && IsIdentifier(name) && LaterCount(Content(value, tail), name) == 0
    ensures ReplaceAll("", AssignmentLine(own, value) + tail, name, repl)
         == if own == name then repl + Rest(Content(value, tail)) else AssignmentLine(own, value) + tail
  {
    hide First, Rest, Matches, Escape, MatchCount, ReplaceAll;
    var line := AssignmentLine(own, value) + tail;
    if own == name {
      AssignmentStart(own, value, tail);
      assert LaterCount(line, name) == 0;
      ReplaceSplit("", line, name, repl);
      assert "" + First(line) == First(line);
      MatchesOwnName(own, "\"" + First(Content(value, tail)), name);
    } else {
      AssignmentCount(own, value, tail, name);
      UnmatchedStays("", line, name, repl);
      assert "" + line == line;
    }
  }

  lemma {:induction false} LabelsAreSafe(s: string, labelStarted: bool)
    requires AreLabels(s, labelStarted)
    ensures IsSafe(s) && '$' !in s
  {
    if s != "" {
      LabelsAreSafe(s[1..], s[0] != '.');
      assert s == [s[0]] + s[1..];
    }
  }

  lemma ArgumentsAreSafe(host: string, id: string)
    requires IsDeploymentHost(host) && IsDeploymentId(id)
    ensures IsSafe(host) && '$' !in host && IsSafe(id) && '$' !in id
  {
    LabelsAreSafe(host[..|host| - |DOMAIN|], false);
    assert host == host[..|host| - |DOMAIN|] + DOMAIN;
    assert id == "dpl_" + id[4..];
  }

  // ---- An inventory ----

  /** Comments without separators; the printers write one or none. */
  predicate IsPlainHead(head: seq<string>) {
    IsHead(head) && forall line <- head :: OneLine(line)
  }

  /** A piece of one of the values, or of what follows it, matches on its own. */
  predicate Tangled(names: seq<string>, values: map<string, string>, tails: map<string, string>, name: string)
    requires forall n <- names :: n in values
  {
    exists n <- names :: LaterCount(Content(values[n], TailOf(tails, n)), name) > 0
  }

  lemma OtherLine(line: string, name: string, repl: string)
    requires IsIdentifier(name) && OneLine(line) && (line == "" || line[0] == '#')
    ensures MatchCount("", line, name) == 0 && ReplaceAll("", line, name, repl) == line
  {
    assert SkipBlanks(line) == line && name[0] in name;
    RestAfter(line, "");
    assert line + "" == line && "" + line == line;
    CountSplit("", line, name);
    UnmatchedStays("", line, name, repl);
  }

  lemma {:induction false} OtherLines(lines: seq<string>, name: string, repl: string)
    requires IsIdentifier(name) && forall line <- lines :: OneLine(line) && (line == "" || line[0] == '#')
    ensures LinesCount(lines, name) == 0 && LinesReplaced(lines, name, repl) == lines
  {
    hide MatchCount, ReplaceAll, OneLine;
    if lines != [] {
      OtherLine(lines[0], name, repl);
      assert forall line <- lines[1..] :: line in lines;
      OtherLines(lines[1..], name, repl);
    }
  }

  lemma {:induction false} WrittenCount(
    names: seq<string>, values: map<string, string>, tails: map<string, string>, name: string)
    requires Distinct(names) && AllNames(names) && IsIdentifier(name) && forall n <- names :: n in values
    ensures LinesCount(Written(names, values, tails), name) >= if name in names then 1 else 0
    ensures LinesCount(Written(names, values, tails), name) == (if name in names then 1 else 0)
      <==> !Tangled(names, values, tails, name)
  {
    hide MatchCount, LaterCount, Content, AssignmentLine;
    if names != [] {
      DistinctRest(names);
      WrittenCount(names[1..], values, tails, name);
      AssignmentCount(names[0], values[names[0]], TailOf(tails, names[0]), name);
    }
  }

  lemma {:induction false} WrittenReplaced(
    names: seq<string>, values: map<string, string>, tails: map<string, string>, name: string, value: string)
    requires AllNames(names) && IsIdentifier(name) && name in values && forall n <- names :: n in values
    requires !Tangled(names, values, tails, name)
    ensures LinesReplaced(Written(names, values, tails), name, AssignmentLine(name, value))
         == Written(names, values[name := value], After(values, tails, name))
  {
    hide ReplaceAll, LaterCount, Content, AssignmentLine, Rest;
    if names != [] {
      assert names == [names[0]] + names[1..];
      WrittenReplaced(names[1..], values, tails, name, value);
      AssignmentReplaced(names[0], values[names[0]], TailOf(tails, names[0]), name, AssignmentLine(name, value));
    }
  }

  /** What of the old value stays behind the new one: all from its first separator on. */
  function After(values: map<string, string>, tails: map<string, string>, name: string): map<string, string>
    requires name in values
  {
    tails[name := Rest(Content(values[name], TailOf(tails, name)))]
  }

  lemma LinesCounted(
    head: seq<string>, names: seq<string>, values: map<string, string>, tails: map<string, string>, name: string)
    requires Lists(names, values) && AllNames(names) && IsIdentifier(name) && IsPlainHead(head)
    ensures LinesCount(Lines(head, names, values, tails), name) >= if name in values then 1 else 0
    ensures LinesCount(Lines(head, names, values, tails), name) == (if name in values then 1 else 0)
      <==> !Tangled(names, values, tails, name)
  {
    hide MatchCount, LaterCount, OneLine, Distinct, IsIdentifier;
    var body := WrittenBody(names, values, tails);
    CountConcat(head, body, name);
    CountConcat(head + body, [""], name);
    EmptyIsLine();
    OtherLines(head, name, "");
    OtherLines([""], name, "");
    WrittenCount(names, values, tails, name);
  }

  lemma LinesUpdated(head: seq<string>, names: seq<string>, values: map<string, string>, tails: map<string, string>,
                     name: string, value: string)
    requires Lists(names, values) && AllNames(names) && IsIdentifier(name) && IsPlainHead(head)
    requires name in values && !Tangled(names, values, tails, name)
    ensures LinesReplaced(Lines(head, names, values, tails), name, AssignmentLine(name, value))
         == Lines(head, names, values[name := value], After(values, tails, name))
  {
    hide MatchCount, ReplaceAll, AssignmentLine, OneLine, Tangled, After, Distinct, IsIdentifier;
    var body, repl := WrittenBody(names, values, tails), AssignmentLine(name, value);
    ReplaceConcat(head, body, name, repl);
    ReplaceConcat(head + body, [""], name, repl);
    EmptyIsLine();
    OtherLines(head, name, repl);
    OtherLines([""], name, repl);
    WrittenReplaced(names, values, tails, name, value);
  }

  lemma EmptyIsLine()
    ensures OneLine("")
  {}

  /** One replacement: refused if a piece of a value matches too, else the line of the name begins anew. */
  lemma ReplacesOne(head: seq<string>, names: seq<string>, values: map<string, string>, tails: map<string, string>,
                    name: string, value: string)
    requires Lists(names, values) && AllNames(names) && IsIdentifier(name) && IsPlainHead(head)
    requires name in values && '$' !in value
    ensures ReplaceSingleAssignment(Join(Lines(head, names, values, tails)), name, value) ==
      if Tangled(names, values, tails, name) then Err("not exactly one assignment")
      else Ok(Join(Lines(head, names, values[name := value], After(values, tails, name))))
  {
    hide MatchCount, ReplaceAll, LinesCount, LinesReplaced, Tangled, After, IsIdentifier, Join, Distinct;
    LinesCounted(head, names, values, tails, name);
    ReplaceInJoin(Lines(head, names, values, tails), name, AssignmentLine(name, value));
    if !Tangled(names, values, tails, name) {
      LinesUpdated(head, names, values, tails, name, value);
    }
  }

  // ---- No name appears that was not there ----

  /** Nothing, a comment, or the assignment of one of the names. */
  ghost predicate IsNamed(line: string, names: seq<string>) {
    NoControl(line) && (line == "" || line[0] == '#' || exists own <- names :: Assigns(line, own))
  }

  predicate Assigns(line: string, own: string) {
    IsIdentifier(own) && StartsWith(line, own + "=")
  }

  lemma {:induction false} ReplaceStarts(line: string, s: string, name: string, repl: string)
    ensures StartsWith(ReplaceAll(line, s, name, repl),
                       if Matches(line + First(s), name) then repl else line + First(s))
    decreases |s|
  {
    if s == "" || IsLineTerminator(s[0]) {
      assert line + "" == line;
    } else {
      ReplaceStarts(line + [s[0]], s[1..], name, repl);
      assert line + [s[0]] + First(s[1..]) == line + First(s);
    }
  }

  lemma {:induction false} ReplaceHasNoControl(line: string, s: string, name: string, repl: string)
    requires NoControl(line) && NoControl(s) && NoControl(repl)
    ensures NoControl(ReplaceAll(line, s, name, repl))
    decreases |s|
  {
    if s != "" {
      assert s[0] in s;
      forall c | c in s[1..] ensures c >= ' ' {
        assert c in s;
      }
      ReplaceHasNoControl(if IsLineTerminator(s[0]) then "" else line + [s[0]], s[1..], name, repl);
    }
  }

  lemma {:induction false} FirstOfAssignment(line: string, own: string)
    requires Assigns(line, own)
    ensures var start := own + "="; First(line) == start + First(line[|start|..])
  {
    var start := own + "=";
    assert line == start + line[|start|..] && OneLine(start);
    RestAfter(start, line[|start|..]);
  }

  /** Replacing the assignment of a name keeps what every line assigns. */
  lemma NamedStays(line: string, names: seq<string>, name: string, value: string)
    requires IsNamed(line, names) && IsIdentifier(name)
    ensures IsNamed(ReplaceAll("", line, name, AssignmentLine(name, value)), names)
  {
    var repl := AssignmentLine(name, value);
    var replaced := ReplaceAll("", line, name, repl);
    LineHasNoControl(name, value);
    ReplaceHasNoControl("", line, name, repl);
    ReplaceStarts("", line, name, repl);
    assert "" + First(line) == First(line);
    if line != "" && line[0] == '#' {
      assert First(line)[0] == '#' && SkipBlanks(First(line)) == First(line) && name[0] in name;
      assert replaced[0] == First(line)[0];
    } else if line != "" {
      var own :| own in names && Assigns(line, own);
      NamedAssignmentStays(line, own, name, value);
    }
  }

  lemma NamedAssignmentStays(line: string, own: string, name: string, value: string)
    requires Assigns(line, own) && IsIdentifier(name)
    ensures Assigns(ReplaceAll("", line, name, AssignmentLine(name, value)), own)
  {
    hide ReplaceAll, Matches, IsIdentifier, Escape;
    var start := own + "=";
    var replaced := ReplaceAll("", line, name, AssignmentLine(name, value));
    FirstOfAssignment(line, own);
    MatchesOwnName(own, First(line[|start|..]), name);
    ReplaceStarts("", line, name, AssignmentLine(name, value));
    assert "" + First(line) == First(line);
    StartsWithStart(replaced, if own == name then AssignmentLine(name, value) else First(line), start);
  }

  lemma StartsWithStart(s: string, long: string, short: string)
    requires StartsWith(s, long) && StartsWith(long, short)
    ensures StartsWith(s, short)
  {
    assert s[..|short|] == s[..|long|][..|short|];
  }

  lemma AssignedName(line: string, own: string)
    requires Assigns(line, own)
    ensures NamesOn(line) <= {own}
  {
    hide Trim, IsIdentifier, IsBlankOrComment;
    var start, after := own + "=", line[|own| + 1..];
    assert line == start + after && start + after == own + "=" + after;
    IdentifierShape(own);
    FirstIs(own, '=', after);
    assert line[..|own|] == own;
  }

  lemma NamedNames(line: string, names: seq<string>)
    requires IsNamed(line, names)
    ensures NamesOn(line) <= set name | name in names
  {
    if line == "" {
    } else if line[0] == '#' {
      CommentStays(line);
    } else {
      var own :| own in names && Assigns(line, own);
      AssignedName(line, own);
    }
  }

  ghost predicate AllNamed(lines: seq<string>, names: seq<string>) {
    forall i :: 0 <= i < |lines| ==> IsNamed(lines[i], names)
  }

  lemma NamesStay(lines: seq<string>, names: seq<string>, name: string, value: string)
    requires AllNamed(lines, names) && IsIdentifier(name)
    ensures AllNamed(LinesReplaced(lines, name, AssignmentLine(name, value)), names)
  {
    hide IsNamed, ReplaceAll, AssignmentLine;
    ReplacedAt(lines, name, AssignmentLine(name, value));
    forall i | 0 <= i < |lines| ensures IsNamed(LinesReplaced(lines, name, AssignmentLine(name, value))[i], names) {
      NamedStays(lines[i], names, name, value);
    }
  }

  lemma LinesAreNamed(head: seq<string>, names: seq<string>, values: map<string, string>)
    requires Lists(names, values) && AllNames(names) && IsHead(head)
    ensures AllNamed(Printed(head, names, values), names)
  {
    hide Written, WrittenLine, NoControl, Assigns;
    var lines := Printed(head, names, values);
    LinesHaveNoControl(head, names, values, map[]);
    LinesStand(head, names, values, map[]);
    forall i | 0 <= i < |lines| ensures IsNamed(lines[i], names) {
      assert lines[i] in lines;
      if i < |head| {
        assert lines[i] == lines[..|head|][i] && head[i] in head;
      } else if i < |head| + |names| {
        var own := names[i - |head|];
        assert lines[|head| + (i - |head|)] == WrittenLine(own, values, map[]);
        WrittenAssigns(own, values, map[]);
      }
    }
  }

  lemma WrittenAssigns(own: string, values: map<string, string>, tails: map<string, string>)
    requires own in values && IsIdentifier(own)
    ensures Assigns(WrittenLine(own, values, tails), own)
  {}

  lemma ReadsNamed(lines: seq<string>, names: seq<string>)
    requires lines != [] && AllNamed(lines, names) && Read(Join(lines)).Ok?
    ensures Read(Join(lines)).value.values.Keys <= set name | name in names
  {
    hide ReadLines, NamesOn, AllKeys, Split, UnixNewlines, Join;
    forall line | line in lines ensures NoControl(line) {
      var i :| 0 <= i < |lines| && lines[i] == line;
      assert IsNamed(lines[i], names);
    }
    CleanLinesSplit(lines);
    forall i | 0 <= i < |lines| ensures NamesOn(lines[i]) <= set name | name in names {
      NamedNames(lines[i], names);
    }
    NoKeys();
    ReadNames(lines, 0, Inventory(map[], []), set name | name in names);
  }

  lemma NamesAreIdentifiers()
    ensures IsIdentifier(HOST_NAME) && IsIdentifier(ID_NAME) && HOST_NAME != ID_NAME
  {
    assert |HOST_NAME| != |ID_NAME|;
  }

  /** A name that is not assigned is not added: the rewrite fails, at the latest when it is read back. */
  lemma MissingNameFails(head: seq<string>, names: seq<string>, values: map<string, string>, host: string, id: string)
    requires Lists(names, values) && AllNames(names) && IsHead(head)
    requires HOST_NAME !in values || ID_NAME !in values
    ensures Render(Join(Printed(head, names, values)), host, id).Err?
  {
    hide ReplaceAll, MatchCount, LinesReplaced, Printed, AllNamed, IsIdentifier, AssignmentLine, Read,
      IsDeploymentHost, IsDeploymentId;
    var lines := Printed(head, names, values);
    NamesAreIdentifiers();
    LinesAreNamed(head, names, values);
    if IsDeploymentHost(host) && IsDeploymentId(id) {
      ArgumentsAreSafe(host, id);
      PrintedIsNotEmpty(head, names, values);
      var hosted := ReplacedLines(lines, names, HOST_NAME, host);
      var rendered := ReplacedLines(hosted, names, ID_NAME, id);
      if Read(Join(rendered)).Ok? {
        ReadsNamed(rendered, names);
      }
    }
  }

  lemma PrintedIsNotEmpty(head: seq<string>, names: seq<string>, values: map<string, string>)
    requires forall name <- names :: name in values
    ensures Printed(head, names, values) != []
  {}

  lemma ReplacedLines(lines: seq<string>, names: seq<string>, name: string, value: string)
    returns (replaced: seq<string>)
    requires lines != [] && AllNamed(lines, names) && IsIdentifier(name)
    ensures replaced != [] && AllNamed(replaced, names)
    ensures ReplaceAll("", Join(lines), name, AssignmentLine(name, value)) == Join(replaced)
  {
    hide ReplaceAll, AllNamed, IsIdentifier, AssignmentLine, Join;
    replaced := LinesReplaced(lines, name, AssignmentLine(name, value));
    ReplaceInJoin(lines, name, AssignmentLine(name, value));
    NamesStay(lines, names, name, value);
  }

  // ---- When the rewrite succeeds ----

  /** What of a printed value stays behind when a new one is written over it: nothing without separators. */
  function Leftover(value: string): string {
    Rest(Content(value, ""))
  }

  /** No piece of a value, after a separator, assigns the name. */
  predicate Untangled(values: map<string, string>, name: string) {
    forall n <- values :: LaterCount(Content(values[n], ""), name) == 0
  }

  function Updated(values: map<string, string>, host: string, id: string): map<string, string> {
    values[HOST_NAME := host][ID_NAME := id]
  }

  function Leftovers(values: map<string, string>): map<string, string>
    requires HOST_NAME in values && ID_NAME in values
  {
    map[HOST_NAME := Leftover(values[HOST_NAME]), ID_NAME := Leftover(values[ID_NAME])]
  }

  lemma SafeIsOneLine(value: string)
    requires IsSafe(value)
    ensures OneLine(Escape(value) + "\"")
  {
    if c :| c in Escape(value) && IsLineTerminator(c) {
      SafeEscape(value, c);
    }
  }

  lemma {:induction false} SafeEscape(value: string, c: char)
    requires IsSafe(value) && c in Escape(value)
    ensures ' ' <= c < '\U{7F}'
  {
    if value != "" {
      assert value[0] in value && value == [value[0]] + value[1..];
      if c in Escape(value[1..]) {
        forall x | x in value[1..] ensures ' ' <= x < '\U{7F}' {
          assert x in value;
        }
        SafeEscape(value[1..], c);
      }
    }
  }

  lemma NothingTails(names: seq<string>, values: map<string, string>, name: string)
    requires Lists(names, values)
    ensures Tangled(names, values, map[], name) <==> !Untangled(values, name)
  {}

  /** A new host does not change what the second replacement finds in the text. */
  lemma TangledStays(names: seq<string>, values: map<string, string>, host: string, name: string)
    requires Lists(names, values) && HOST_NAME in values && IsSafe(host)
    ensures Tangled(names, values[HOST_NAME := host], After(values, map[], HOST_NAME), name)
      <==> Tangled(names, values, map[], name)
  {
    hide LaterCount, Escape;
    var before, after := Content(values[HOST_NAME], ""), Content(host, Leftover(values[HOST_NAME]));
    assert LaterCount(after, name) == LaterCount(before, name) by {
      LaterStays(values[HOST_NAME], host, name);
    }
    var next, tails := values[HOST_NAME := host], After(values, map[], HOST_NAME);
    forall n <- names
      ensures LaterCount(Content(next[n], TailOf(tails, n)), name)
           == LaterCount(Content(values[n], TailOf(map[], n)), name)
    {}
  }

  lemma LaterStays(value: string, host: string, name: string)
    requires IsSafe(host)
    ensures LaterCount(Content(host, Leftover(value)), name) == LaterCount(Content(value, ""), name)
  {
    SafeIsOneLine(host);
    RestAfter(Escape(host) + "\"", Leftover(value));
    RestOfRest(Content(value, ""));
  }

  /** With both names there, each replacement is of the one line that assigns its name, or is refused. */
  lemma RendersText(head: seq<string>, names: seq<string>, values: map<string, string>, host: string, id: string)
    returns (rendered: Result<string>)
    requires Lists(names, values) && AllNames(names) && IsPlainHead(head)
    requires HOST_NAME in values && ID_NAME in values && IsDeploymentHost(host) && IsDeploymentId(id)
    ensures rendered.Ok? <==> Untangled(values, HOST_NAME) && Untangled(values, ID_NAME)
    ensures rendered.Ok? ==> rendered.value == Join(Lines(head, names, Updated(values, host, id), Leftovers(values)))
    ensures '$' !in host && '$' !in id
    ensures rendered ==
      match ReplaceSingleAssignment(Join(Printed(head, names, values)), HOST_NAME, host)
      case Err(reason) => Err(reason)
      case Ok(hosted) => ReplaceSingleAssignment(hosted, ID_NAME, id)
  {
    hide ReplaceSingleAssignment, Tangled, Untangled, Lines, IsIdentifier, Rest, Content;
    ArgumentsAreSafe(host, id);
    NamesAreIdentifiers();
    NothingTails(names, values, HOST_NAME);
    NothingTails(names, values, ID_NAME);
    var next, tails := values[HOST_NAME := host], After(values, map[], HOST_NAME);
    assert Lists(names, next);
    TangledStays(names, values, host, ID_NAME);
    ReplacesOne(head, names, values, map[], HOST_NAME, host);
    ReplacesOne(head, names, next, tails, ID_NAME, id);
    assert After(next, tails, ID_NAME) == Leftovers(values);
    rendered := match ReplaceSingleAssignment(Join(Printed(head, names, values)), HOST_NAME, host)
      case Err(reason) => Err(reason)
      case Ok(hosted) => ReplaceSingleAssignment(hosted, ID_NAME, id);
  }

  lemma {:induction false} RestHasNoControl(s: string)
    requires NoControl(s)
    ensures NoControl(Rest(s))
  {
    if s != "" && !IsLineTerminator(s[0]) {
      forall c | c in s[1..] ensures c >= ' ' {
        assert c in s;
      }
      RestHasNoControl(s[1..]);
    }
  }

  lemma LeftoversHaveNoControl(values: map<string, string>)
    requires HOST_NAME in values && ID_NAME in values
    ensures NoControls(Leftovers(values))
  {
    forall name <- values ensures NoControl(Leftover(values[name])) {
      EscapeHasNoControl(values[name]);
      RestHasNoControl(Content(values[name], ""));
    }
  }

  /** Whether what is left behind is passed over by the reader. */
  predicate LeavesHarmless(values: map<string, string>, name: string)
    requires name in values
  {
    IsHarmless(Leftover(values[name]))
  }

  lemma LeftoversAreHarmless(names: seq<string>, values: map<string, string>)
    requires Lists(names, values) && HOST_NAME in values && ID_NAME in values
    ensures AllHarmless(names, Leftovers(values))
      <==> LeavesHarmless(values, HOST_NAME) && LeavesHarmless(values, ID_NAME)
  {
    NamesAreIdentifiers();
    assert Trim("") == "";
    var tails := Leftovers(values);
    assert TailOf(tails, HOST_NAME) == Leftover(values[HOST_NAME]);
    assert TailOf(tails, ID_NAME) == Leftover(values[ID_NAME]);
  }

  lemma SafeReadsBack(value: string)
    requires IsSafe(value)
    ensures Decode(Escape(value)) == value
  {
    assert forall c <- value :: Survives(c);
    DecodeEscape(value);
  }

  lemma RereadUpdate(values: map<string, string>, name: string, value: string)
    requires IsSafe(value)
    ensures Reread(values[name := value]) == Reread(values)[name := value]
  {
    hide Decode, Escape, IsSafe;
    SafeReadsBack(value);
  }

  lemma UpdatedReads(values: map<string, string>, host: string, id: string)
    requires IsSafe(host) && IsSafe(id)
    ensures Reread(Updated(values, host, id)) == Updated(Reread(values), host, id)
  {
    hide Reread, IsSafe;
    RereadUpdate(values, HOST_NAME, host);
    RereadUpdate(values[HOST_NAME := host], ID_NAME, id);
  }

  /** What the rewrite needs of host, ID and inventory. */
  predicate CanRewrite(values: map<string, string>, host: string, id: string) {
    && IsDeploymentHost(host) && IsDeploymentId(id) && HOST_NAME in values && ID_NAME in values
    && Untangled(values, HOST_NAME) && Untangled(values, ID_NAME)
    && LeavesHarmless(values, HOST_NAME) && LeavesHarmless(values, ID_NAME)
  }

  /**
   The rewrite of a printed inventory succeeds if and only if host and ID are well formed, both names are
   there, no value has a piece after a separator that assigns one of them, and whatever the two old values
   leave behind is passed over. Read back, the result is then the map with exactly those two values replaced.
   */
  lemma RenderSucceedsExactly(
    head: seq<string>, names: seq<string>, values: map<string, string>, host: string, id: string)
    requires Lists(names, values) && AllNames(names) && IsPlainHead(head)
    ensures var rendered := Render(Join(Printed(head, names, values)), host, id);
      && (rendered.Ok? <==> CanRewrite(values, host, id))
      && (rendered.Ok? ==>
          && rendered.value == Join(Lines(head, names, Updated(values, host, id), Leftovers(values)))
          && Read(rendered.value) == Ok(Inventory(Updated(Reread(values), host, id), names)))
  {
    hide ReplaceSingleAssignment, Untangled, LeavesHarmless, Leftovers, Lines, Reread, Read, Join,
      IsDeploymentHost, IsDeploymentId, IsPlainHead, IsIdentifier;
    if HOST_NAME !in values || ID_NAME !in values {
      assert IsHead(head) by { PlainHeadIsHead(head); }
      MissingNameFails(head, names, values, host, id);
    } else if IsDeploymentHost(host) && IsDeploymentId(id) {
      assert IsHead(head) by { PlainHeadIsHead(head); }
      ArgumentsAreSafe(host, id);
      NamesAreIdentifiers();
      var text := RendersText(head, names, values, host, id);
      if text.Ok? {
        var updated := Updated(values, host, id);
        assert Lists(names, updated);
        LeftoversHaveNoControl(values);
        ReadsLines(head, names, updated, Leftovers(values));
        LeftoversAreHarmless(names, values);
        UpdatedReads(values, host, id);
      }
    }
  }

  lemma PlainHeadIsHead(head: seq<string>)
    requires IsPlainHead(head)
    ensures IsHead(head)
  {}

  // ---- When the text is that of the updated map ----

  predicate HasNoSeparator(value: string) {
    forall c <- value :: !IsSeparator(c)
  }

  lemma EscapedSeparator(c: char)
    ensures OneLine(EscapeChar(c)) <==> !IsSeparator(c)
  {
    EscapeCharHasNoControl(c);
    EscapeShape(c);
    if IsSeparator(c) {
      assert EscapeChar(c) == [c] && c in [c];
    }
  }

  lemma OneLineConcat(s: string, t: string)
    ensures OneLine(s + t) <==> OneLine(s) && OneLine(t)
  {
    assert forall i :: 0 <= i < |s| ==> (s + t)[i] == s[i];
    assert forall i :: 0 <= i < |t| ==> (s + t)[|s| + i] == t[i];
  }

  lemma {:induction false} EscapedSeparators(value: string)
    ensures OneLine(Escape(value)) <==> HasNoSeparator(value)
  {
    if value != "" {
      assert value == [value[0]] + value[1..];
      EscapedSeparators(value[1..]);
      EscapedSeparator(value[0]);
      OneLineConcat(EscapeChar(value[0]), Escape(value[1..]));
    }
  }

  /** Nothing is left behind, and nothing can match after a separator, without separators. */
  lemma LeftoverIsNothing(value: string)
    ensures Leftover(value) == "" <==> HasNoSeparator(value)
    ensures HasNoSeparator(value) ==> forall name :: LaterCount(Content(value, ""), name) == 0
  {
    EscapedSeparators(value);
    OneLineConcat(Escape(value), "\"");
    assert Content(value, "") == Escape(value) + "\"";
    RestOfRest(Content(value, ""));
  }

  /** Different lines are different text. */
  lemma JoinIsInjective(a: seq<string>, b: seq<string>)
    requires a != [] && b != [] && (forall line <- a :: NoControl(line)) && (forall line <- b :: NoControl(line))
    ensures Join(a) == Join(b) ==> a == b
  {
    forall line | line in a || line in b ensures '\n' !in line {
      assert NoControl(line);
    }
    SplitJoin(a);
    SplitJoin(b);
  }

  lemma {:induction false} SameTails(
    names: seq<string>, values: map<string, string>, tails: map<string, string>, name: string)
    requires (forall n <- names :: n in values) && name in names
    requires Written(names, values, tails) == Written(names, values, map[])
    ensures TailOf(tails, name) == ""
  {
    WrittenAt(names, values, tails);
    WrittenAt(names, values, map[]);
    var i :| 0 <= i < |names| && names[i] == name;
    assert Written(names, values, tails)[i] == Written(names, values, map[])[i];
    assert |WrittenLine(name, values, tails)| == |AssignmentLine(name, values[name])| + |TailOf(tails, name)|;
  }

  lemma {:induction false} NoTails(names: seq<string>, values: map<string, string>, tails: map<string, string>)
    requires (forall n <- names :: n in values) && forall name <- tails :: tails[name] == ""
    ensures Written(names, values, tails) == Written(names, values, map[])
  {
    if names != [] {
      NoTails(names[1..], values, tails);
      assert TailOf(tails, names[0]) == "";
    }
  }

  lemma SameBodies(head: seq<string>, names: seq<string>, values: map<string, string>, tails: map<string, string>)
    requires names != [] && forall n <- names :: n in values
    requires Lines(head, names, values, tails) == Printed(head, names, values)
    ensures Written(names, values, tails) == Written(names, values, map[])
  {
    var lines, end := Lines(head, names, values, tails), |head| + |names|;
    WrittenAt(names, values, tails);
    WrittenAt(names, values, map[]);
    hide Written;
    assert lines[|head|..end] == Written(names, values, tails);
    assert Printed(head, names, values)[|head|..end] == Written(names, values, map[]);
  }

  lemma SameLines(head: seq<string>, names: seq<string>, values: map<string, string>, tails: map<string, string>)
    requires Lists(names, values) && AllNames(names) && NoControls(tails) && IsHead(head) && names != []
    requires forall name <- tails :: name in names
    ensures (Join(Lines(head, names, values, tails)) == Join(Printed(head, names, values)))
      == (forall name <- tails :: tails[name] == "")
  {
    hide Join, Written, NoControl, IsHead, AllNames;
    LinesHaveNoControl(head, names, values, tails);
    NothingHasNoControls();
    LinesHaveNoControl(head, names, values, map[]);
    JoinIsInjective(Lines(head, names, values, tails), Printed(head, names, values));
    if Lines(head, names, values, tails) == Printed(head, names, values) {
      SameBodies(head, names, values, tails);
      forall name <- tails ensures tails[name] == "" {
        SameTails(names, values, tails, name);
      }
    }
    if forall name <- tails :: tails[name] == "" {
      NoTails(names, values, tails);
    }
  }

  lemma NothingHasNoControls()
    ensures NoControls(map[])
  {}

  predicate CanPrint(values: map<string, string>, host: string, id: string) {
    CanRewrite(values, host, id) && HasNoSeparator(values[HOST_NAME]) && HasNoSeparator(values[ID_NAME])
  }

  /** The result is the text of the updated map if and only if, besides, neither old value has a separator. */
  lemma RenderPrints(head: seq<string>, names: seq<string>, values: map<string, string>, host: string, id: string)
    requires Lists(names, values) && AllNames(names) && IsPlainHead(head) && HOST_NAME in values && ID_NAME in values
    ensures (Render(Join(Printed(head, names, values)), host, id)
             == Ok(Join(Printed(head, names, Updated(values, host, id))))) == CanPrint(values, host, id)
  {
    hide Render, Lines, Printed, Read, Reread, Join, HasNoSeparator, Leftover, IsPlainHead, IsHead, Untangled,
      IsDeploymentHost, IsDeploymentId, IsHarmless, AllNames;
    RenderSucceedsExactly(head, names, values, host, id);
    PlainHeadIsHead(head);
    var updated, tails := Updated(values, host, id), Leftovers(values);
    assert Lists(names, updated);
    LeftoversHaveNoControl(values);
    assert HOST_NAME in names;
    SameLines(head, names, updated, tails);
    LeftoverIsNothing(values[HOST_NAME]);
    LeftoverIsNothing(values[ID_NAME]);
    NamesAreIdentifiers();
    assert tails[HOST_NAME] == Leftover(values[HOST_NAME]) && tails[ID_NAME] == Leftover(values[ID_NAME]);
  }

  // ---- The two printers ----

  lemma HeaderIsPlain()
    ensures IsPlainHead([HEADER]) && IsPlainHead([])
  {
    HeaderIsHead();
    HeaderIsSafe();
    forall c <- HEADER ensures !IsLineTerminator(c) {}
  }

  /** For the inventories that are printed: when the rewrite is an update of the map, as text. */
  lemma RenderIsMapUpdate(names: seq<string>, values: map<string, string>, host: string, id: string)
    requires Lists(names, values) && AllNames(names) && HOST_NAME in values && ID_NAME in values
    ensures var updated := Updated(values, host, id);
      && Lists(names, updated)
      && (Render(SerializeInventory(names, values), host, id) == Ok(SerializeInventory(names, updated)))
         == CanPrint(values, host, id)
      && (Render(SerializeEnvironment(names, values), host, id) == Ok(SerializeEnvironment(names, updated)))
         == CanPrint(values, host, id)
  {
    hide Render, CanPrint, Printed, IsPlainHead, AllNames, Join;
    HeaderIsPlain();
    InventoryIsPrinted(names, values);
    EnvironmentIsPrinted(names, values);
    InventoryIsPrinted(names, Updated(values, host, id));
    EnvironmentIsPrinted(names, Updated(values, host, id));
    RenderPrints([HEADER], names, values, host, id);
    RenderPrints([], names, values, host, id);
  }

  /** For both printers: it succeeds exactly when it can, and read before and after, exactly the two values change. */
  lemma RenderKeepsTheRest(names: seq<string>, values: map<string, string>, host: string, id: string)
    requires Lists(names, values) && IsPrintable(values)
    ensures forall text | text in {SerializeInventory(names, values), SerializeEnvironment(names, values)} ::
      var rendered := Render(text, host, id);
      && (rendered.Ok? <==> CanRewrite(values, host, id))
      && (rendered.Ok? ==> Read(rendered.value) == Ok(Inventory(Updated(values, host, id), names)))
  {
    hide Render, CanRewrite, Printed, Lines, IsPlainHead, Join, Read, Updated;
    HeaderIsPlain();
    assert AllNames(names);
    RereadPrintable(values);
    InventoryIsPrinted(names, values);
    EnvironmentIsPrinted(names, values);
    RenderSucceedsExactly([HEADER], names, values, host, id);
    RenderSucceedsExactly([], names, values, host, id);
  }

  lemma RereadPrintable(values: map<string, string>)
    requires IsPrintable(values)
    ensures Reread(values) == values
  {
    forall name <- values ensures Reread(values)[name] == values[name] {
      DecodeEscape(values[name]);
    }
  }

  /** A value that, after a separator, assigns the host itself: the rewrite is refused. */
  lemma PlantedAssignmentIsRefused(
    head: seq<string>, names: seq<string>, values: map<string, string>, host: string, id: string, planted: string)
    requires Lists(names, values) && AllNames(names) && IsPlainHead(head)
    requires planted in values && values[planted] == "\U{2028}" + HOST_NAME + "="
    ensures Render(Join(Printed(head, names, values)), host, id).Err?
  {
    hide Render, Printed, Join, IsPlainHead, AllNames, LaterCount, Content, IsIdentifier;
    RenderSucceedsExactly(head, names, values, host, id);
    NamesAreIdentifiers();
    PlantedMatches("\U{2028}", HOST_NAME);
  }

  lemma PlantedContent(separator: string, own: string)
    requires IsIdentifier(own) && separator == "\U{2028}"
    ensures Content(separator + own + "=", "") == separator + (own + "=" + "\"")
  {
    hide Escape;
    assert separator + own + "=" == separator + (own + "=");
    SeparatorEscapes(separator, own + "=");
    PlainEscapes(own + "=");
    assert separator + (own + "=") + "\"" + "" == separator + (own + "=" + "\"");
  }

  lemma SeparatorEscapes(separator: string, rest: string)
    requires separator == "\U{2028}"
    ensures Escape(separator + rest) == separator + Escape(rest)
  {
    assert (separator + rest)[1..] == rest;
  }

  lemma OwnPieceMatches(own: string)
    requires IsIdentifier(own)
    ensures MatchCount("", own + "=" + "\"", own) > 0
  {
    hide Matches, MatchCount;
    var piece := own + "=" + "\"";
    assert OneLine(piece);
    RestAfter(piece, "");
    assert piece + "" == piece && "" + piece == piece;
    CountSplit("", piece, own);
    MatchesOwnName(own, "\"", own);
  }

  lemma PlantedMatches(separator: string, own: string)
    requires IsIdentifier(own) && separator == "\U{2028}"
    ensures LaterCount(Content(separator + own + "=", ""), own) > 0
  {
    hide Content, MatchCount, IsIdentifier;
    var piece := own + "=" + "\"";
    PlantedContent(separator, own);
    OwnPieceMatches(own);
    assert (separator + piece)[1..] == piece;
  }

  /** A separator in a replaced value does harm when text is left behind it. */
  lemma TextIsLeft()
    ensures Leftover("a\U{2028}b") == "\U{2028}b\"" && !IsHarmless(Leftover("a\U{2028}b"))
  {
    TextIsWritten();
    TextIsNoComment();
    RestAfter("a", "\U{2028}b\"");
    hide IsHarmless, Content, Escape;
  }

  lemma TextIsWritten()
    ensures Content("a\U{2028}b", "") == "a" + "\U{2028}b\"" && Rest("\U{2028}b\"") == "\U{2028}b\""
  {
    hide IsHarmless;
  }

  lemma TextIsNoComment()
    ensures !IsHarmless("\U{2028}b\"")
  {
    var s := "\U{2028}b\"";
    assert TrimStart(s) == TrimStart(s[1..]) && s[1..] == "b\"";
    TrimKeepsStart("b\"");
    hide TrimEnd;
  }

  /** It does none when a comment is: the rewrite succeeds, and the comment stays in the text. */
  lemma CommentIsLeft()
    ensures Leftover("\U{2028}#") == "\U{2028}#\"" && IsHarmless(Leftover("\U{2028}#"))
  {
    assert Content("\U{2028}#", "") == "\U{2028}#\"";
  }

  lemma {:induction false} PlainEscapes(s: string)
    requires forall c <- s :: IsNamePart(c) || c == '='
    ensures Escape(s) == s
  {
    if s != "" {
      assert s == [s[0]] + s[1..] && s[0] in s;
      PlainEscapes(s[1..]);
    }
  }
}
