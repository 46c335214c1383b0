/**
 The env-file editor: reading a file into rows, writing rows back, and the checks
 made on rows a client sends.
 */
module EnvFile {
  import opened Text
  import opened Wrappers

  /** bufio.Scanner gives up on a line that does not fit in a buffer of this many bytes. */
  const MAX_SCAN_TOKEN: nat := 65536

  /** One row.  Only the display hint `Sensitive` is left out. */
  datatype EnvEntry = EnvEntry(
    key: string,
    value: string,
    line: nat,
    comment: bool,
    quote: string,
    inlineComment: string
  )

  // ------------------------------------------------------------ closing quotes

  /** Length of the run of backslashes that ends just before position i. */
  function BackslashRun(s: string, i: nat): nat
    requires i <= |s|
  {
    if i == 0 || s[i - 1] != '\\' then 0 else 1 + BackslashRun(s, i - 1)
  }

  /** What stands (or would be written) at position i is escaped. */
  predicate EscapedAt(s: string, i: nat)
    requires i <= |s|
  {
    BackslashRun(s, i) % 2 == 1
  }

  predicate ClosesAt(s: string, q: char, i: nat)
    requires i < |s|
  {
    s[i] == q && !EscapedAt(s, i)
  }

  /** The first unescaped q at or after `from`, or -1. */
  function FirstClose(s: string, q: char, from: nat): (idx: int)
    requires from <= |s|
    ensures idx == -1 || (from <= idx < |s| && ClosesAt(s, q, idx))
    decreases |s| - from
  {
    if from == |s| then -1
    else if ClosesAt(s, q, from) then from
    else FirstClose(s, q, from + 1)
  }

  lemma {:induction false} FirstCloseSpec(s: string, q: char, from: nat)
    requires from <= |s|
    ensures var idx := FirstClose(s, q, from);
            forall i :: from <= i < (if idx == -1 then |s| else idx) ==> !ClosesAt(s, q, i)
    decreases |s| - from
  {
    if from < |s| && !ClosesAt(s, q, from) {
      FirstCloseSpec(s, q, from + 1);
    }
  }

  /** The one-pass automaton of the source, against the run-parity definition above. */
  method ClosingQuote(s: string, q: char) returns (idx: int, trailingEscape: bool)
    requires q != '\\'
    ensures idx == FirstClose(s, q, 0)
    ensures trailingEscape <==> idx == -1 && EscapedAt(s, |s|)
  {
    var escaped := false;
    for i := 0 to |s|
      invariant escaped == EscapedAt(s, i)
      invariant FirstClose(s, q, 0) == FirstClose(s, q, i)
    {
      if escaped {
        escaped := false;
      } else if s[i] == '\\' {
        escaped := true;
      } else if s[i] == q {
        return i, false;
      }
    }
    return -1, escaped;
  }

  // ---------------------------------------------------------- splitting a value

  datatype Pieces = Pieces(value: string, quote: string, inlineComment: string)

  predicate IsQuote(c: char) {
    c == '\'' || c == '"'
  }

  /** raw is a closed quotation followed by nothing but a comment. */
  predicate QuotedShape(raw: string) {
    && raw != ""
    && IsQuote(raw[0])
    && var end := FirstClose(raw[1..], raw[0], 0);
       && end != -1
       && var rest := TrimLeft(raw[end + 2..]);
          rest == "" || rest[0] == '#'
  }

  /** strings.Index(s, " #") */
  function IndexOfSpaceHash(s: string): (i: int)
    ensures i == -1 || (0 <= i < |s| - 1 && s[i] == ' ' && s[i + 1] == '#')
  {
    if |s| < 2 then -1
    else if s[0] == ' ' && s[1] == '#' then 0
    else
      var r := IndexOfSpaceHash(s[1..]);
      if r == -1 then -1 else r + 1
  }

  lemma {:induction false} IndexOfSpaceHashSpec(s: string)
    ensures var i := IndexOfSpaceHash(s);
            forall k :: 0 <= k < (if i == -1 then |s| - 1 else i) ==> !(s[k] == ' ' && s[k + 1] == '#')
  {
    if |s| >= 2 && !(s[0] == ' ' && s[1] == '#') {
      IndexOfSpaceHashSpec(s[1..]);
      assert forall k :: 1 <= k < |s| ==> s[k] == s[1..][k - 1];
    }
  }

  function SplitEnvValue(raw: string): Pieces {
    if QuotedShape(raw) then
      var end := FirstClose(raw[1..], raw[0], 0);
      Pieces(raw[1..1 + end], [raw[0]], raw[end + 2..])
    else
      var i := IndexOfSpaceHash(raw);
      if i == -1 then Pieces(raw, "", "")
      else
        var value := TrimRight(raw[..i]);
        Pieces(value, "", raw[|value|..])
  }

  // -------------------------------------------------------------------- reading

  function DropCR(line: string): string {
    if line != "" && line[|line| - 1] == '\r' then line[..|line| - 1] else line
  }

  /** The text up to the first newline, or all of it. */
  function FirstLine(content: string): string {
    var nl := IndexOf(content, '\n');
    if nl == -1 then content else content[..nl]
  }

  function AfterFirstLine(content: string): (rest: string)
    ensures content != "" ==> |rest| < |content|
  {
    var nl := IndexOf(content, '\n');
    if nl == -1 then "" else content[nl + 1..]
  }

  /** The tokens bufio.Scanner delivers: lines, up to the first that is too long. */
  function ScanLines(content: string): seq<string>
    decreases |content|
  {
    if content == "" || Utf8Length(FirstLine(content)) >= MAX_SCAN_TOKEN then []
    else [DropCR(FirstLine(content))] + ScanLines(AfterFirstLine(content))
  }

  /** A non-blank, trimmed line that is neither a comment nor a line without "=". */
  predicate IsAssignment(t: string) {
    t != "" && t[0] != '#' && IndexOf(t, '=') != -1
  }

  function KeyText(t: string): string
    requires IsAssignment(t)
  {
    Trim(t[..IndexOf(t, '=')])
  }

  function ValueText(t: string): string
    requires IsAssignment(t)
  {
    Trim(t[IndexOf(t, '=') + 1..])
  }

  function Assigned(key: string, p: Pieces, lineNum: nat): EnvEntry {
    EnvEntry(key, p.value, lineNum, false, p.quote, p.inlineComment)
  }

  function ParseLine(text: string, lineNum: nat): EnvEntry {
    var t := Trim(Trim(text));
    if t == "" then EnvEntry("", "", lineNum, false, "", "")
    else if !IsAssignment(t) then EnvEntry("", t, lineNum, true, "", "")
    else Assigned(KeyText(t), SplitEnvValue(ValueText(t)), lineNum)
  }

  function ParseTokens(tokens: seq<string>, before: nat): (entries: seq<EnvEntry>)
    ensures |entries| == |tokens|
  {
    seq(|tokens|, i requires 0 <= i < |tokens| => ParseLine(tokens[i], before + i + 1))
  }

  function Parse(content: string): seq<EnvEntry> {
    ParseTokens(ScanLines(content), 0)
  }

  lemma ParseTokensCons(token: string, tokens: seq<string>, before: nat)
    ensures ParseTokens([token] + tokens, before)
         == [ParseLine(token, before + 1)] + ParseTokens(tokens, before + 1)
  {
  }

  method ParseEnvFile(content: string) returns (entries: seq<EnvEntry>)
    ensures entries == Parse(content)
  {
    hide ParseLine, DropCR, FirstLine, AfterFirstLine, Utf8Length;
    entries := [];
    var rest, lineNum := content, 0;
    while rest != ""
      invariant lineNum == |entries|
      invariant entries + ParseTokens(ScanLines(rest), lineNum) == Parse(content)
      decreases |rest|
    {
      var raw := FirstLine(rest);
      if Utf8Length(raw) >= MAX_SCAN_TOKEN {
        return;
      }
      ghost var tokens := ScanLines(AfterFirstLine(rest));
      ParseTokensCons(DropCR(raw), tokens, lineNum);
      var entry := ParseLine(DropCR(raw), lineNum + 1);
      assert entries + ([entry] + ParseTokens(tokens, lineNum + 1))
          == entries + [entry] + ParseTokens(tokens, lineNum + 1);
      rest := AfterFirstLine(rest);
      lineNum := lineNum + 1;
      entries := entries + [entry];
    }
  }

  // -------------------------------------------------------------------- writing

  /** The line written for an entry, without its newline. */
  function EntryText(e: EnvEntry): string {
    if e.comment then e.value
    else if e.key == "" && e.value == "" then ""
    else e.key + "=" + e.quote + e.value + e.quote
         + (if e.quote != "" || e.value != "" then e.inlineComment else "")
  }

  function Texts(entries: seq<EnvEntry>): (lines: seq<string>)
    ensures |lines| == |entries|
  {
    seq(|entries|, i requires 0 <= i < |entries| => EntryText(entries[i]))
  }

  /** The file made of these lines, each ended by a newline. */
  function JoinLines(lines: seq<string>): string {
    if lines == [] then "" else lines[0] + "\n" + JoinLines(lines[1..])
  }

  function Serialize(entries: seq<EnvEntry>): string {
    JoinLines(Texts(entries))
  }

  lemma {:induction false} JoinLinesAppend(lines: seq<string>, last: string)
    ensures JoinLines(lines + [last]) == JoinLines(lines) + last + "\n"
  {
    if lines == [] {
      assert JoinLines([last]) == last + "\n" + JoinLines([]);
    } else {
      assert (lines + [last])[1..] == lines[1..] + [last];
      JoinLinesAppend(lines[1..], last);
      assert lines[0] + "\n" + (JoinLines(lines[1..]) + last + "\n")
          == lines[0] + "\n" + JoinLines(lines[1..]) + last + "\n";
    }
  }

  lemma SerializeAppend(entries: seq<EnvEntry>, e: EnvEntry)
    ensures Serialize(entries + [e]) == Serialize(entries) + EntryText(e) + "\n"
  {
    JoinLinesAppend(Texts(entries), EntryText(e));
    assert Texts(entries + [e]) == Texts(entries) + [EntryText(e)];
  }

  method WriteEntry(buf: string, entry: EnvEntry) returns (out: string)
    ensures out == buf + EntryText(entry) + "\n"
  {
    var line := "";
    if entry.comment {
      if !(entry.key == "" && entry.value == "") {
        line := line + entry.value;
      }
      assert line == EntryText(entry);
    } else if !(entry.key == "" && entry.value == "") {
      line := line + entry.key;
      line := line + "=";
      line := line + entry.quote;
      line := line + entry.value;
      line := line + entry.quote;
      if entry.quote != "" || entry.value != "" {
        line := line + entry.inlineComment;
      }
      assert line == EntryText(entry);
    }
    out := buf + line + "\n";
  }

  method SerializeEnvFile(entries: seq<EnvEntry>) returns (buf: string)
    ensures buf == Serialize(entries)
  {
    buf := "";
    for i := 0 to |entries|
      invariant buf == Serialize(entries[..i])
    {
      buf := WriteEntry(buf, entries[i]);
      SerializeAppend(entries[..i], entries[i]);
      assert entries[..i + 1] == entries[..i] + [entries[i]];
    }
    assert entries[..|entries|] == entries;
  }

  // ----------------------------------------------------------------- validation

  datatype Fault =
    | CommentWithKey | CommentNewline | CommentChanges
    | EmptyKey | KeyNewline | ValueNewline
    | UnescapedQuote | TrailingBackslash | UnsupportedQuote
    | InlineNewline | InlineNotAComment

  /** strings.ContainsAny(s, "\r\n") */
  predicate HasNewline(s: string) {
    '\r' in s || '\n' in s
  }

  function CommentRowFault(e: EnvEntry): Option<Fault> {
    if e.key != "" then Some(CommentWithKey)
    else if e.value == "" then None
    else if HasNewline(e.value) then Some(CommentNewline)
    else
      var back := Parse(Serialize([e]));
      if |back| != 1 || !back[0].comment || back[0].value != e.value then Some(CommentChanges) else None
  }

  function InlineCommentFault(e: EnvEntry): Option<Fault> {
    var c := e.inlineComment;
    if c == "" then None
    else if HasNewline(c) then Some(InlineNewline)
    else
      var body := TrimLeft(c);
      var lead := c[..|c| - |body|];
      if body == "" || body[0] != '#' || (e.quote == "" && (lead == "" || lead[|lead| - 1] != ' '))
      then Some(InlineNotAComment) else None
  }

  function QuotingFault(e: EnvEntry): Option<Fault> {
    if e.quote == "" then InlineCommentFault(e)
    else if e.quote == "'" || e.quote == "\"" then
      if FirstClose(e.value, e.quote[0], 0) != -1 then Some(UnescapedQuote)
      else if EscapedAt(e.value, |e.value|) then Some(TrailingBackslash)
      else InlineCommentFault(e)
    else Some(UnsupportedQuote)
  }

  function EntryFault(e: EnvEntry): Option<Fault> {
    if e.comment then CommentRowFault(e)
    else if e.key == "" && e.value == "" then None
    else if e.key == "" then Some(EmptyKey)
    else if HasNewline(e.key) then Some(KeyNewline)
    else if HasNewline(e.value) then Some(ValueNewline)
    else QuotingFault(e)
  }

  predicate Accepted(entries: seq<EnvEntry>) {
    forall i :: 0 <= i < |entries| ==> EntryFault(entries[i]) == None
  }

  datatype Verdict = Valid | Invalid(index: nat, fault: Fault)

  method ValidateEnvQuoting(e: EnvEntry) returns (fault: Option<Fault>)
    ensures fault == QuotingFault(e)
  {
    if e.quote == "'" || e.quote == "\"" {
      var idx, trailingEscape := ClosingQuote(e.value, e.quote[0]);
      if idx != -1 {
        return Some(UnescapedQuote);
      }
      if trailingEscape {
        return Some(TrailingBackslash);
      }
    } else if e.quote != "" {
      return Some(UnsupportedQuote);
    }
    fault := InlineCommentFault(e);
  }

  method ValidateEnvCommentRow(e: EnvEntry) returns (fault: Option<Fault>)
    ensures fault == CommentRowFault(e)
  {
    if e.key != "" {
      return Some(CommentWithKey);
    }
    if e.value == "" {
      return None;
    }
    if HasNewline(e.value) {
      return Some(CommentNewline);
    }
    var text := SerializeEnvFile([e]);
    var back := ParseEnvFile(text);
    if |back| != 1 || !back[0].comment || back[0].value != e.value {
      return Some(CommentChanges);
    }
    fault := None;
  }

  method ValidateEnvEntry(e: EnvEntry) returns (fault: Option<Fault>)
    ensures fault == EntryFault(e)
  {
    if e.comment {
      fault := ValidateEnvCommentRow(e);
    } else if e.key == "" && e.value == "" {
      fault := None;
    } else if e.key == "" && e.value != "" {
      fault := Some(EmptyKey);
    } else if HasNewline(e.key) {
      fault := Some(KeyNewline);
    } else if HasNewline(e.value) {
      fault := Some(ValueNewline);
    } else {
      fault := ValidateEnvQuoting(e);
    }
  }

  lemma AcceptedAppend(entries: seq<EnvEntry>, e: EnvEntry)
    requires Accepted(entries) && EntryFault(e) == None
    ensures Accepted(entries + [e])
  {
  }

  /** The first offending row is the one reported. */
  method ValidateEnvEntries(entries: seq<EnvEntry>) returns (v: Verdict)
    ensures v.Valid? <==> Accepted(entries)
    ensures v.Invalid? ==>
              && v.index < |entries|
              && EntryFault(entries[v.index]) == Some(v.fault)
              && Accepted(entries[..v.index])
  {
    for i := 0 to |entries|
      invariant Accepted(entries[..i])
    {
      assert entries[..i + 1] == entries[..i] + [entries[i]];
      var fault := ValidateEnvEntry(entries[i]);
      if fault.Some? {
        return Invalid(i, fault.value);
      }
      AcceptedAppend(entries[..i], entries[i]);
    }
    assert entries[..|entries|] == entries;
    return Valid;
  }
}
