/**
 What the checks on a client's rows are worth: the rows they let through, the
 rows that come back as they were written, and the file the rows make together.
 */
module EnvValidation {
  import opened Text
  import opened Wrappers
  import opened EnvFile
  import opened EnvRoundTrip

  // ---------------------------------------------------------------- comment rows

  lemma OneLineFile(l: string)
    requires OneLine(l)
    ensures ScanLines(JoinLines([l])) == if Fits(l) then [l] else []
  {
    ScanOfJoined([l]);
    assert Fitting([l]) == if Fits(l) then [l] + Fitting([]) else [];
  }

  /** What the checker's one-row round trip of a comment sees. */
  lemma CommentRoundTrip(e: EnvEntry)
    requires e.comment && OneLine(e.value)
    ensures Parse(Serialize([e])) == if Fits(e.value) then [ParseLine(e.value, 1)] else []
  {
    assert Texts([e]) == [e.value];
    OneLineFile(e.value);
  }

  /** A line reads as that very comment when it is trimmed and no assignment. */
  lemma ReadsAsComment(v: string)
    requires v != ""
    ensures ParseLine(v, 1).comment && ParseLine(v, 1).value == v <==> Trimmed(v) && (v[0] == '#' || '=' !in v)
  {
    TrimYieldsTrimmed(v);
    TrimYieldsTrimmed(Trim(v));
  }

  /** The comment rows let through are blank ones and one-line texts the reader calls comments. */
  lemma CommentRowsAccepted(e: EnvEntry)
    requires e.comment
    ensures CommentRowFault(e) == None
       <==> && e.key == ""
            && (e.value != "" ==>
                  && !HasNewline(e.value) && Fits(e.value) && Trimmed(e.value)
                  && (e.value[0] == '#' || '=' !in e.value))
  {
    hide ParseLine, Fits, Trimmed, Serialize, Parse;
    if e.key == "" && e.value != "" && !HasNewline(e.value) {
      CommentRoundTrip(e);
      ReadsAsComment(e.value);
    }
  }

  // -------------------------------------------------------------- closing quotes

  lemma {:induction false} EscapeLooksBack(s: string, tail: string, i: nat)
    requires i <= |s|
    ensures BackslashRun(s + tail, i) == BackslashRun(s, i)
  {
    if i > 0 && s[i - 1] == '\\' {
      EscapeLooksBack(s, tail, i - 1);
    }
  }

  lemma {:induction false} CloseInExtension(s: string, tail: string, q: char, from: nat)
    requires from <= |s|
    ensures FirstClose(s, q, from) != -1 ==> FirstClose(s + tail, q, from) == FirstClose(s, q, from)
    ensures FirstClose(s, q, from) == -1 ==> FirstClose(s + tail, q, from) == FirstClose(s + tail, q, |s|)
    decreases |s| - from
  {
    if from < |s| {
      EscapeLooksBack(s, tail, from);
      CloseInExtension(s, tail, q, from + 1);
    }
  }

  /** Where the quotation written around value closes. */
  lemma WrittenQuoteCloses(value: string, q: char, rest: string)
    requires q != '\\'
    ensures FirstClose(value + [q] + rest, q, 0) == |value|
       <==> FirstClose(value, q, 0) == -1 && !EscapedAt(value, |value|)
  {
    var s := value + [q] + rest;
    assert s == value + ([q] + rest);
    CloseInExtension(value, [q] + rest, q, 0);
    EscapeLooksBack(value, [q] + rest, |value|);
    assert s[|value|] == q;
  }

  // ------------------------------------------------------- a row written and read

  /** Writing the row and reading the line gives it back, but for trailing space. */
  predicate ReadsBack(e: EnvEntry) {
    ParseLine(EntryText(e), e.line) == e.(inlineComment := TrimRight(e.inlineComment))
  }

  predicate WellFormedKey(k: string) {
    k != "" && Trimmed(k) && '=' !in k && k[0] != '#'
  }

  /** The unquoted values a file can hold as they are. */
  predicate UnquotedSurvives(value: string, inlineComment: string) {
    if value == "" then inlineComment == ""
    else
      && Trimmed(value)
      && IndexOfSpaceHash(value) == -1
      && !QuotedShape(value + TrimRight(inlineComment))
  }

  predicate IsQuoteText(q: string) {
    q == "'" || q == "\""
  }

  /** An inline comment the checks let through is white space and then a "#" text. */
  lemma InlineCommentShape(e: EnvEntry) returns (pad: string, body: string)
    requires InlineCommentFault(e) == None && e.inlineComment != ""
    ensures TrimRight(e.inlineComment) == pad + body
    ensures AllSpaces(pad) && body != "" && body[0] == '#'
    ensures e.quote == "" ==> pad != "" && pad[|pad| - 1] == ' '
  {
    hide KeptLength, LeadingSpaces;
    var c := e.inlineComment;
    var rest := TrimLeft(c);
    pad := c[..LeadingSpaces(c)];
    LeadingSpacesSpec(c);
    KeptLengthSpec(rest);
    TrimRightKeepsFirst(rest);
    body := TrimRight(rest);
    var tail := rest[KeptLength(rest)..];
    assert c == (pad + body) + tail;
    assert (pad + body)[|pad + body| - 1] == body[|body| - 1];
    TrimRightOfPadded(pad + body, tail);
    assert body[0] == rest[0];
  }

  lemma LineOfEntry(e: EnvEntry)
    requires !e.comment && e.key != ""
    ensures EntryText(e)
         == e.key + "=" + (e.quote + e.value + e.quote
                           + (if e.quote != "" || e.value != "" then e.inlineComment else ""))
  {
  }

  /** A line "key=..." whose key is not well formed never reads back under that key. */
  lemma BrokenKeyIsLost(k: string, x: string, lineNum: nat)
    requires k != ""
    requires var b := ParseLine(k + "=" + x, lineNum); !b.comment && b.key == k
    ensures WellFormedKey(k)
  {
    var line := k + "=" + x;
    var t := Trim(line);
    TrimYieldsTrimmed(line);
    KeyTextIsKeyLike(t);
    var left, right := TrimSplits(line);
    assert line[0] == k[0];
    if left != "" { assert left[0] == line[0]; }
    assert t != "";
    assert t[0] == line[0];
  }

  /** Splitting a written quotation followed by nothing or by a comment. */
  lemma QuotedSplit(q: char, value: string, c: string)
    requires IsQuote(q)
    requires TrimLeft(c) == "" || TrimLeft(c)[0] == '#'
    ensures SplitEnvValue([q] + value + [q] + c) == Pieces(value, [q], c)
       <==> FirstClose(value, q, 0) == -1 && !EscapedAt(value, |value|)
  {
    var raw := [q] + value + [q] + c;
    WrittenQuoteCloses(value, q, c);
    assert raw[1..] == value + [q] + c;
    assert raw[|value| + 2..] == c;
    assert raw[1..1 + |value|] == value;
    var end := FirstClose(raw[1..], q, 0);
    if QuotedShape(raw) && end != |value| {
      assert |raw[1..1 + end]| != |value|;
    }
  }

  /** A quoted row reads back exactly when its quotation closes where it was meant to. */
  lemma QuotedReadsBack(e: EnvEntry)
    requires !e.comment && WellFormedKey(e.key) && IsQuoteText(e.quote)
    requires InlineCommentFault(e) == None
    ensures ReadsBack(e) <==> FirstClose(e.value, e.quote[0], 0) == -1 && !EscapedAt(e.value, |e.value|)
  {
    var c := TrimRight(e.inlineComment);
    assert TrimLeft(c) == "" || TrimLeft(c)[0] == '#' by {
      if e.inlineComment != "" {
        var pad, body := InlineCommentShape(e);
        TrimLeftOfPadded(pad, body);
      }
    }
    LineOfEntry(e);
    TrimKeepsQuoted(e.quote, e.value, e.inlineComment);
    ParseAssignment(e.key, e.quote + e.value + e.quote + e.inlineComment, e.line);
    assert [e.quote[0]] == e.quote;
    QuotedSplit(e.quote[0], e.value, c);
  }

  lemma TrimKeepsQuoted(q: string, value: string, c: string)
    requires IsQuoteText(q)
    ensures Trim(q + value + q + c) == q + value + q + TrimRight(c)
  {
    var head := q + value + q;
    assert head[0] == q[0] && head[|head| - 1] == q[0];
    TrimKeepsHead(head, c);
  }

  // --------------------------------------------------------------- unquoted rows

  lemma {:induction false} SpaceHashInExtension(v: string, x: string)
    ensures IndexOfSpaceHash(v) != -1 ==> IndexOfSpaceHash(v + x) == IndexOfSpaceHash(v)
    ensures IndexOfSpaceHash(v) == -1 && '#' !in x ==> IndexOfSpaceHash(v + x) == -1
  {
    if v == "" {
      assert v + x == x;
      NoSpaceHash(x);
    } else {
      assert (v + x)[1..] == v[1..] + x;
      SpaceHashInExtension(v[1..], x);
    }
  }

  lemma {:induction false} NoSpaceHash(x: string)
    ensures '#' !in x ==> IndexOfSpaceHash(x) == -1
  {
    if |x| >= 2 { NoSpaceHash(x[1..]); }
  }

  lemma {:induction false} SpaceHashFirst(head: string, rest: string)
    requires IndexOfSpaceHash(head) == -1
    ensures IndexOfSpaceHash(head + " #" + rest) == |head|
  {
    var s := head + " #" + rest;
    if head != "" {
      assert s[1..] == head[1..] + " #" + rest;
      SpaceHashFirst(head[1..], rest);
    }
  }

  lemma UntrimmedIsLost(v: string, x: string, c: string)
    requires !Trimmed(v)
    ensures SplitEnvValue(Trim(x)) != Pieces(v, "", c)
  {
    var raw := Trim(x);
    TrimYieldsTrimmed(x);
    var i := IndexOfSpaceHash(raw);
    if i != -1 {
      KeptLengthSpec(raw[..i]);
      var w := TrimRight(raw[..i]);
      if w != "" { assert w[0] == raw[0]; }
    }
  }

  /** Splitting a trimmed value with no comment after it. */
  lemma BareSplit(v: string)
    requires v != "" && Trimmed(v)
    ensures SplitEnvValue(v) == Pieces(v, "", "") <==> IndexOfSpaceHash(v) == -1 && !QuotedShape(v)
  {
  }

  lemma SpacesHoldNoHash(w: string)
    requires AllSpaces(w)
    ensures '#' !in w
  {
  }

  /** Where the comment after a value without one begins, and what stands before it. */
  lemma CommentStart(v: string, w: string, rest: string)
    requires v != "" && Trimmed(v) && IndexOfSpaceHash(v) == -1 && AllSpaces(w)
    ensures IndexOfSpaceHash(v + w + " #" + rest) == |v + w| && TrimRight(v + w) == v
  {
    SpacesHoldNoHash(w);
    SpaceHashInExtension(v, w);
    SpaceHashFirst(v + w, rest);
    TrimRightOfPadded(v, w);
  }

  lemma CommentSlices(v: string, w: string, pad: string, body: string)
    requires pad == w + " " && body != "" && body[0] == '#'
    ensures v + (pad + body) == v + w + " #" + body[1..]
    ensures (v + (pad + body))[..|v + w|] == v + w && (v + (pad + body))[|v|..] == pad + body
  {
    assert body == "#" + body[1..];
    assert v + (pad + body) == v + w + " #" + body[1..];
  }

  /** Splitting a trimmed value followed by white space ending in " " and a "#" comment. */
  lemma CommentedSplit(v: string, pad: string, body: string)
    requires v != "" && Trimmed(v)
    requires AllSpaces(pad) && pad != "" && pad[|pad| - 1] == ' '
    requires body != "" && body[0] == '#'
    ensures SplitEnvValue(v + (pad + body)) == Pieces(v, "", pad + body)
       <==> IndexOfSpaceHash(v) == -1 && !QuotedShape(v + (pad + body))
  {
    hide QuotedShape, FirstClose, IndexOfSpaceHash, KeptLength, Trimmed;
    if IndexOfSpaceHash(v) != -1 {
      SpaceHashInExtension(v, pad + body);
    } else {
      var w := pad[..|pad| - 1];
      CommentSlices(v, w, pad, body);
      CommentStart(v, w, body[1..]);
    }
  }

  lemma UnquotedSplit(e: EnvEntry, v: string, c: string)
    requires v == e.value && c == TrimRight(e.inlineComment)
    requires v != "" && Trimmed(v) && e.quote == ""
    requires InlineCommentFault(e) == None
    ensures SplitEnvValue(v + c) == Pieces(v, "", c) <==> IndexOfSpaceHash(v) == -1 && !QuotedShape(v + c)
  {
    if e.inlineComment == "" {
      assert v + c == v;
      BareSplit(v);
    } else {
      var pad, body := InlineCommentShape(e);
      CommentedSplit(v, pad, body);
    }
  }

  /** An unquoted row reads back exactly when its value is one the file can hold bare. */
  lemma UnquotedReadsBack(e: EnvEntry)
    requires !e.comment && WellFormedKey(e.key) && e.quote == ""
    requires InlineCommentFault(e) == None
    ensures ReadsBack(e) <==> UnquotedSurvives(e.value, e.inlineComment)
  {
    var v, c := e.value, e.inlineComment;
    if v == "" {
      if c != "" { var pad, body := InlineCommentShape(e); }
      assert e.quote + v + e.quote == "";
      assert EntryText(e) == e.key + "=" + "";
      ParseAssignment(e.key, "", e.line);
      TrimOfTrimmed("");
    } else {
      var raw := v + c;
      assert EntryText(e) == e.key + "=" + raw;
      ParseAssignment(e.key, raw, e.line);
      if Trimmed(v) {
        TrimKeepsHead(v, c);
        UnquotedSplit(e, v, TrimRight(c));
      } else {
        UntrimmedIsLost(v, raw, TrimRight(c));
      }
    }
  }

  // ------------------------------------------------------------- every variable row

  predicate ValueSurvives(e: EnvEntry) {
    if e.quote == "" then UnquotedSurvives(e.value, e.inlineComment)
    else FirstClose(e.value, e.quote[0], 0) == -1 && !EscapedAt(e.value, |e.value|)
  }

  /** Which rows the reader gives back, over all rows with a key and a permitted comment. */
  lemma RowReadsBackExactly(e: EnvEntry)
    requires !e.comment && e.key != "" && (e.quote == "" || IsQuoteText(e.quote))
    requires InlineCommentFault(e) == None
    ensures ReadsBack(e) <==> WellFormedKey(e.key) && ValueSurvives(e)
  {
    if WellFormedKey(e.key) {
      if e.quote == "" { UnquotedReadsBack(e); } else { QuotedReadsBack(e); }
    } else if ReadsBack(e) {
      LineOfEntry(e);
      BrokenKeyIsLost(e.key, e.quote + e.value + e.quote
                             + (if e.quote != "" || e.value != "" then e.inlineComment else ""), e.line);
    }
  }

  /** For a quoted row the quoting check refuses exactly the rows that would not read back. */
  lemma QuotingCheckIsExact(e: EnvEntry)
    requires !e.comment && WellFormedKey(e.key) && IsQuoteText(e.quote)
    requires InlineCommentFault(e) == None
    ensures QuotingFault(e) == None <==> ReadsBack(e)
  {
    QuotedReadsBack(e);
  }

  // ---------------------------------------------------------------- a whole table

  /** The text written for an accepted row holds no line break at all. */
  lemma AcceptedRowIsOneLine(e: EnvEntry)
    requires EntryFault(e) == None
    ensures !HasNewline(EntryText(e))
  {
    if !e.comment && e.key != "" {
      LineOfEntry(e);
      assert e.quote == "" || IsQuoteText(e.quote);
    }
  }

  /** An accepted table is written one line per row, and is read back row by row. */
  lemma AcceptedTable(rows: seq<EnvEntry>)
    requires Accepted(rows)
    ensures AllLines(Serialize(rows)) == Texts(rows)
    ensures Parse(Serialize(rows)) == ParseTokens(Fitting(Texts(rows)), 0)
  {
    forall i | 0 <= i < |rows|
      ensures !HasNewline(Texts(rows)[i]) && OneLine(Texts(rows)[i])
    {
      AcceptedRowIsOneLine(rows[i]);
    }
    AllLinesOfJoined(Texts(rows));
    ScanOfJoined(Texts(rows));
  }

  /** The row count is kept exactly when every line fits the scanner's buffer. */
  lemma AcceptedTableReadBack(rows: seq<EnvEntry>)
    requires Accepted(rows)
    ensures |Parse(Serialize(rows))| <= |rows|
    ensures |Parse(Serialize(rows))| == |rows| <==> forall e :: e in rows ==> Fits(EntryText(e))
    ensures forall i :: 0 <= i < |Parse(Serialize(rows))|
              ==> Parse(Serialize(rows))[i] == ParseLine(EntryText(rows[i]), i + 1)
  {
    hide Fits, ParseLine, Accepted, Serialize, Parse, EntryText, Fitting, ScanLines, JoinLines, AllLines;
    AcceptedTable(rows);
    var texts, kept := Texts(rows), Fitting(Texts(rows));
    if |kept| == |rows| {
      forall e | e in rows ensures Fits(EntryText(e)) {
        var i :| 0 <= i < |rows| && rows[i] == e;
        assert Fits(kept[i]) && kept[i] == texts[i];
      }
    } else {
      assert !Fits(texts[|kept|]);
      assert rows[|kept|] in rows;
    }
  }

  /** A comment row of an accepted table comes back as the same comment in the same place. */
  lemma CommentKeepsItsPlace(rows: seq<EnvEntry>, i: nat)
    requires Accepted(rows) && i < |rows|
    requires rows[i].comment && rows[i].value != ""
    requires forall k :: 0 <= k < i ==> Fits(EntryText(rows[k]))
    ensures i < |Parse(Serialize(rows))|
    ensures Parse(Serialize(rows))[i] == EnvEntry("", rows[i].value, i + 1, true, "", "")
  {
    var e := rows[i];
    CommentRowsAccepted(e);
    AcceptedTable(rows);
    var kept := Fitting(Texts(rows));
    assert |kept| > i by {
      assert |kept| < |rows| ==> !Fits(Texts(rows)[|kept|]);
    }
    assert kept[i] == e.value;
    TrimYieldsTrimmed(e.value);
  }

  /** The row as the file can say it: an empty comment is a blank line, and space after a comment is dropped. */
  function Numbered(e: EnvEntry, n: nat): EnvEntry {
    if !e.comment && e.key != "" then e.(line := n, inlineComment := TrimRight(e.inlineComment))
    else EnvEntry("", e.value, n, e.value != "", "", "")
  }

  function Renumbered(rows: seq<EnvEntry>): (all: seq<EnvEntry>)
    ensures |all| == |rows|
  {
    seq(|rows|, i requires 0 <= i < |rows| => Numbered(rows[i], i + 1))
  }

  /** Every line fits the scanner's buffer, and every variable's key and value are ones the file can hold. */
  predicate Holdable(e: EnvEntry) {
    Fits(EntryText(e)) && (!e.comment && e.key != "" ==> WellFormedKey(e.key) && ValueSurvives(e))
  }

  lemma AcceptedRowReadBack(e: EnvEntry, n: nat)
    requires EntryFault(e) == None && Fits(EntryText(e))
    ensures ParseLine(EntryText(e), n) == Numbered(e, n) <==> Holdable(e)
  {
    hide ParseLine, Fits, Trimmed, SplitEnvValue, ValueSurvives;
    if e.comment {
      CommentRowsAccepted(e);
      if e.value == "" { BlankLine(n); } else { CommentLine(e.value, n); }
    } else if e.key == "" {
      BlankLine(n);
    } else {
      var renumbered := e.(line := n);
      assert EntryText(renumbered) == EntryText(e);
      RowReadsBackExactly(renumbered);
      SurvivalIgnoresLine(e, n);
    }
  }

  lemma SurvivalIgnoresLine(e: EnvEntry, n: nat)
    requires e.quote == "" || IsQuoteText(e.quote)
    ensures ValueSurvives(e.(line := n)) == ValueSurvives(e)
  {
  }

  lemma CommentLine(text: string, n: nat)
    requires text != "" && Trimmed(text) && (text[0] == '#' || '=' !in text)
    ensures ParseLine(text, n) == EnvEntry("", text, n, true, "", "")
  {
    TrimOfTrimmed(text);
  }

  /**
   An accepted table comes back row by row as it was sent, renumbered, exactly
   when every line fits and every variable row is one the file can hold.
   */
  lemma AcceptedTableSurvives(rows: seq<EnvEntry>)
    requires Accepted(rows)
    ensures Parse(Serialize(rows)) == Renumbered(rows) <==> forall i :: 0 <= i < |rows| ==> Holdable(rows[i])
  {
    hide Fits, ParseLine, Holdable, Serialize, Parse, Numbered, EntryFault;
    AcceptedTableReadBack(rows);
    var back, sent := Parse(Serialize(rows)), Renumbered(rows);
    if back == sent {
      forall i | 0 <= i < |rows| ensures Holdable(rows[i]) {
        assert rows[i] in rows && back[i] == sent[i];
        AcceptedRowReadBack(rows[i], i + 1);
      }
    }
    if forall i :: 0 <= i < |rows| ==> Holdable(rows[i]) {
      forall e | e in rows ensures Fits(EntryText(e)) { HoldableFits(e); }
      forall i | 0 <= i < |rows| ensures back[i] == sent[i] {
        HoldableFits(rows[i]);
        AcceptedRowReadBack(rows[i], i + 1);
      }
    }
  }

  lemma HoldableFits(e: EnvEntry)
    ensures Holdable(e) ==> Fits(EntryText(e))
  {
  }
}
