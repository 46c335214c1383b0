/**
 What reading and writing env files keep: an unedited save, a second save, a row
 written and read back, and a validated table as a whole.
 */
module EnvRoundTrip {
  import opened Text
  import opened EnvFile

  // ------------------------------------------------------------ lines and files

  /** A line the scanner hands over unchanged when it fits. */
  predicate OneLine(l: string) {
    '\n' !in l && (l == "" || l[|l| - 1] != '\r')
  }

  predicate Fits(l: string) {
    Utf8Length(l) < MAX_SCAN_TOKEN
  }

  /** The scanner's buffer holds 64 KiB: a line of 65535 bytes fits beside its newline, one of 65536 does not. */
  lemma BufferLimit(l: string)
    ensures Utf8Length(l) <= 65535 ==> Fits(l)
    ensures Utf8Length(l) >= 65536 ==> !Fits(l)
  {
  }

  /** The lines before the first one the scanner cannot hold. */
  function Fitting(lines: seq<string>): (kept: seq<string>)
    ensures kept <= lines
    ensures forall i :: 0 <= i < |kept| ==> Fits(kept[i])
    ensures |kept| == |lines| || !Fits(lines[|kept|])
  {
    if lines == [] || !Fits(lines[0]) then [] else [lines[0]] + Fitting(lines[1..])
  }

  /** Every line of the file, whatever its length. */
  function AllLines(content: string): seq<string>
    decreases |content|
  {
    if content == "" then [] else [FirstLine(content)] + AllLines(AfterFirstLine(content))
  }

  predicate EndsWithNewline(content: string) {
    content == "" || content[|content| - 1] == '\n'
  }

  lemma FirstLineOfJoined(lines: seq<string>)
    requires lines != [] && '\n' !in lines[0]
    ensures JoinLines(lines) != ""
    ensures FirstLine(JoinLines(lines)) == lines[0]
    ensures AfterFirstLine(JoinLines(lines)) == JoinLines(lines[1..])
  {
    var l, rest := lines[0], JoinLines(lines[1..]);
    var content := l + "\n" + rest;
    IndexOfFirst(l, '\n', rest);
    assert content[..|l|] == l;
    assert content[|l| + 1..] == rest;
  }

  lemma {:induction false} ScanOfJoined(lines: seq<string>)
    requires forall i :: 0 <= i < |lines| ==> OneLine(lines[i])
    ensures ScanLines(JoinLines(lines)) == Fitting(lines)
  {
    if lines != [] {
      FirstLineOfJoined(lines);
      ScanOfJoined(lines[1..]);
    }
  }

  lemma {:induction false} AllLinesOfJoined(lines: seq<string>)
    requires forall i :: 0 <= i < |lines| ==> '\n' !in lines[i]
    ensures AllLines(JoinLines(lines)) == lines
  {
    if lines != [] {
      FirstLineOfJoined(lines);
      AllLinesOfJoined(lines[1..]);
    }
  }

  lemma FirstLineSplits(content: string)
    requires content != "" && EndsWithNewline(content)
    ensures content == FirstLine(content) + "\n" + AfterFirstLine(content)
    ensures '\n' !in FirstLine(content) && EndsWithNewline(AfterFirstLine(content))
  {
    var nl := IndexOf(content, '\n');
    IndexOfSpec(content, '\n');
    assert content[|content| - 1] in content;
    var rest := content[nl + 1..];
    if rest != "" { assert rest[|rest| - 1] == content[|content| - 1]; }
  }

  lemma JoinLinesCons(l: string, lines: seq<string>)
    ensures JoinLines([l] + lines) == l + "\n" + JoinLines(lines)
  {
    assert ([l] + lines)[1..] == lines;
  }

  lemma {:induction false} JoinedAllLines(content: string)
    requires EndsWithNewline(content)
    ensures JoinLines(AllLines(content)) == content
    ensures forall i :: 0 <= i < |AllLines(content)| ==> '\n' !in AllLines(content)[i]
    decreases |content|
  {
    if content != "" {
      FirstLineSplits(content);
      JoinedAllLines(AfterFirstLine(content));
      JoinLinesCons(FirstLine(content), AllLines(AfterFirstLine(content)));
    }
  }

  lemma JoinedEndsWithNewline(lines: seq<string>)
    ensures EndsWithNewline(JoinLines(lines))
  {
    if lines != [] {
      JoinedEndsWithNewline(lines[1..]);
    }
  }

  lemma DropCROnlyShortens(raw: string)
    requires '\n' !in raw
    ensures '\n' !in DropCR(raw) && Utf8Length(DropCR(raw)) <= Utf8Length(raw)
  {
    Utf8LengthOfParts(raw, |DropCR(raw)|);
  }

  predicate ScannedToken(t: string) {
    '\n' !in t && Fits(t)
  }

  lemma FirstLineHasNoNewline(content: string)
    ensures '\n' !in FirstLine(content)
  {
    IndexOfSpec(content, '\n');
  }

  lemma {:induction false} ScannedTokens(content: string)
    ensures forall i :: 0 <= i < |ScanLines(content)| ==> ScannedToken(ScanLines(content)[i])
    decreases |content|
  {
    if content != "" && Utf8Length(FirstLine(content)) < MAX_SCAN_TOKEN {
      ScannedTokens(AfterFirstLine(content));
      FirstLineHasNoNewline(content);
      DropCROnlyShortens(FirstLine(content));
      assert ScannedToken(DropCR(FirstLine(content)));
    }
  }

  // ------------------------------------------------------------ splitting values

  lemma CutAtQuotes(raw: string, end: nat)
    requires end + 1 < |raw|
    ensures [raw[0]] + raw[1..1 + end] + [raw[1 + end]] + raw[end + 2..] == raw
  {
    assert raw[..1 + end] == [raw[0]] + raw[1..1 + end];
    assert raw[..end + 2] == raw[..1 + end] + [raw[1 + end]];
  }

  /** The pieces concatenate back to what was split. */
  lemma PiecesRebuildRaw(raw: string)
    ensures var p := SplitEnvValue(raw);
            p.quote + p.value + p.quote + p.inlineComment == raw
  {
    hide FirstClose, TrimLeft, KeptLength, EscapedAt;
    if QuotedShape(raw) {
      var end := FirstClose(raw[1..], raw[0], 0);
      assert raw[1 + end] == raw[1..][end];
      CutAtQuotes(raw, end);
    } else {
      var p := SplitEnvValue(raw);
      assert raw == p.value + p.inlineComment;
      assert "" + p.value + "" + p.inlineComment == p.value + p.inlineComment;
    }
  }

  /** A trimmed text splits into an unquoted empty value only when it is empty. */
  lemma EmptyUnquotedMeansEmpty(raw: string)
    requires Trimmed(raw)
    requires SplitEnvValue(raw).quote == "" && SplitEnvValue(raw).value == ""
    ensures raw == ""
  {
    var i := IndexOfSpaceHash(raw);
    if i > 0 { TrimRightKeepsFirst(raw[..i]); }
  }

  // -------------------------------------------------------------- one assignment

  predicate KeyLike(k: string) {
    Trimmed(k) && '=' !in k && (k == "" || k[0] != '#')
  }

  lemma TrimKeepsHead(head: string, x: string)
    requires head != "" && Trimmed(head)
    ensures Trim(head + x) == head + TrimRight(x)
  {
    KeptLengthSpec(x);
    var tail := x[KeptLength(x)..];
    var mid := head + TrimRight(x);
    assert head + x == "" + mid + tail;
    assert mid[0] == head[0];
    if TrimRight(x) != "" { assert mid[|mid| - 1] == TrimRight(x)[|TrimRight(x)| - 1]; }
    TrimOfPadded("", mid, tail);
  }

  lemma TrimOfTrimRight(x: string)
    ensures Trim(TrimRight(x)) == Trim(x)
  {
    var left, right := TrimSplits(x);
    var t := Trim(x);
    if t == "" {
      assert AllSpaces(x) by { assert x == left + right; }
      TrimRightOfPadded("", x);
      assert "" + x == x;
    } else {
      assert x == (left + t) + right;
      assert (left + t)[|left + t| - 1] == t[|t| - 1];
      TrimRightOfPadded(left + t, right);
      assert TrimRight(x) == left + t + "";
      TrimOfPadded(left, t, "");
    }
  }

  /** A key followed by "=" is found again, whatever follows. */
  lemma AssignmentParts(k: string, x: string)
    requires KeyLike(k)
    ensures var t := Trim(k + "=" + x);
            Trim(t) == t && t != "" && IsAssignment(t) && KeyText(t) == k && ValueText(t) == Trim(x)
  {
    var head := k + "=";
    assert head[0] == if k == "" then '=' else k[0];
    TrimKeepsHead(head, x);
    var t := k + "=" + TrimRight(x);
    TrimYieldsTrimmed(head + x);
    IndexOfFirst(k, '=', TrimRight(x));
    assert t[..|k|] == k && t[|k| + 1..] == TrimRight(x);
    TrimOfTrimmed(k);
    TrimOfTrimRight(x);
    assert t[0] == head[0];
  }

  /** A key followed by "=" is read back as that key and the split of what follows. */
  lemma ParseAssignment(k: string, x: string, lineNum: nat)
    requires KeyLike(k)
    ensures ParseLine(k + "=" + x, lineNum) == Assigned(k, SplitEnvValue(Trim(x)), lineNum)
  {
    AssignmentParts(k, x);
  }

  // ------------------------------------------------------------ one line re-saved

  /** The line an unedited save writes for a scanned line. */
  function Resaved(text: string): string {
    EntryText(ParseLine(text, 0))
  }

  /** `=''`: the empty quotation of an empty key, which is written as a blank line. */
  predicate VanishingQuote(e: EnvEntry) {
    e.key == "" && e.value == "" && e.quote != ""
  }

  lemma KeyTextIsKeyLike(t: string)
    requires Trimmed(t) && IsAssignment(t)
    ensures KeyLike(KeyText(t)) && Trimmed(ValueText(t))
  {
    var eq := IndexOf(t, '=');
    IndexOfSpec(t, '=');
    TrimYieldsTrimmed(t[..eq]);
    TrimYieldsTrimmed(t[eq + 1..]);
    TrimAddsNothing(t[..eq], '=');
    if eq > 0 { TrimKeepsFirst(t[..eq]); }
  }

  /** What is written for an assignment split into pieces p of r. */
  lemma AssignedText(k: string, p: Pieces, r: string, lineNum: nat)
    requires p.quote + p.value + p.quote + p.inlineComment == r
    requires p.quote == "" && p.value == "" ==> r == ""
    ensures EntryText(Assigned(k, p, lineNum)) == (if k == "" && p.value == "" then "" else k + "=" + r)
  {
    assert k + "=" + p.quote + p.value + p.quote + p.inlineComment
        == k + "=" + (p.quote + p.value + p.quote + p.inlineComment);
  }

  /** The three kinds of line, as they are re-saved. */
  lemma ResavedCases(text: string, lineNum: nat)
    ensures var t := Trim(text);
            && Trimmed(t)
            && (!IsAssignment(t) ==>
                  && EntryText(ParseLine(text, lineNum)) == t
                  && ParseLine(text, lineNum) == ParseLine(t, lineNum)
                  && !VanishingQuote(ParseLine(text, lineNum)))
            && (IsAssignment(t) ==>
                  var k, r := KeyText(t), ValueText(t);
                  var p := SplitEnvValue(r);
                  && KeyLike(k) && Trimmed(r)
                  && ParseLine(text, lineNum) == Assigned(k, p, lineNum)
                  && EntryText(ParseLine(text, lineNum)) == (if k == "" && p.value == "" then "" else k + "=" + r))
  {
    var t := Trim(text);
    TrimYieldsTrimmed(text);
    if IsAssignment(t) {
      var r := ValueText(t);
      KeyTextIsKeyLike(t);
      PiecesRebuildRaw(r);
      var p := SplitEnvValue(r);
      if p.quote == "" && p.value == "" { EmptyUnquotedMeansEmpty(r); }
      AssignedText(KeyText(t), p, r, lineNum);
    }
  }

  /** A re-saved line is trimmed, no longer than what was read, and still one line. */
  lemma ResavedIsCleanLine(text: string)
    requires '\n' !in text
    ensures Trimmed(Resaved(text)) && OneLine(Resaved(text))
    ensures Utf8Length(Resaved(text)) <= Utf8Length(text)
  {
    var t := Trim(text);
    ResavedCases(text, 0);
    TrimAddsNothing(text, '\n');
    Utf8LengthOfTrim(text);
    if IsAssignment(t) {
      AssignmentRewritten(t);
    }
  }

  lemma AssignmentRewritten(t: string)
    requires Trimmed(t) && IsAssignment(t)
    ensures var l := KeyText(t) + "=" + ValueText(t);
            Trimmed(l) && Utf8Length(l) <= Utf8Length(t) && ('\n' !in t ==> '\n' !in l)
  {
    KeyTextIsKeyLike(t);
    JoinedByEqualsIsTrimmed(KeyText(t), ValueText(t));
    AssignmentNoLonger(t);
    var eq := IndexOf(t, '=');
    if '\n' !in t {
      TrimAddsNothing(t[..eq], '\n');
      TrimAddsNothing(t[eq + 1..], '\n');
    }
  }

  lemma AssignmentNoLonger(t: string)
    requires IsAssignment(t)
    ensures Utf8Length(KeyText(t) + "=" + ValueText(t)) <= Utf8Length(t)
  {
    var eq := IndexOf(t, '=');
    assert t == t[..eq] + "=" + t[eq + 1..];
    Utf8LengthOfAssignment(t[..eq], t[eq + 1..]);
    Utf8LengthOfAssignment(KeyText(t), ValueText(t));
    Utf8LengthOfTrim(t[..eq]);
    Utf8LengthOfTrim(t[eq + 1..]);
  }

  lemma JoinedByEqualsIsTrimmed(k: string, r: string)
    requires Trimmed(k) && Trimmed(r)
    ensures Trimmed(k + "=" + r)
  {
    var l := k + "=" + r;
    assert l[0] == if k == "" then '=' else k[0];
    assert l[|l| - 1] == if r == "" then '=' else r[|r| - 1];
  }

  lemma Utf8LengthOfAssignment(k: string, r: string)
    ensures Utf8Length(k + "=" + r) == Utf8Length(k) + Utf8Length("=") + Utf8Length(r)
  {
    Utf8LengthConcat(k + "=", r);
    Utf8LengthConcat(k, "=");
  }

  /** A re-saved line reads as the same row, unless the row is a vanishing quote. */
  lemma ResavedReadsTheSame(text: string, lineNum: nat)
    ensures EntryText(ParseLine(text, lineNum)) == Resaved(text)
    ensures ParseLine(Resaved(text), lineNum) == ParseLine(text, lineNum)
       <==> !VanishingQuote(ParseLine(text, lineNum))
    ensures VanishingQuote(ParseLine(text, lineNum)) ==> Resaved(text) == ""
  {
    var t := Trim(text);
    ResavedCases(text, lineNum);
    ResavedCases(text, 0);
    if IsAssignment(t) {
      var k, r := KeyText(t), ValueText(t);
      var p := SplitEnvValue(r);
      if k == "" && p.value == "" {
        BlankLine(lineNum);
        if p.quote == "" {
          EmptyUnquotedMeansEmpty(r);
          PiecesRebuildRaw(r);
        }
      } else {
        ParseAssignment(k, r, lineNum);
        TrimOfTrimmed(r);
      }
    }
  }

  lemma BlankLine(lineNum: nat)
    ensures ParseLine("", lineNum) == EnvEntry("", "", lineNum, false, "", "")
  {
    TrimOfTrimmed("");
  }

  // ----------------------------------------------------------- the file as a whole

  function ResavedLines(tokens: seq<string>): seq<string> {
    seq(|tokens|, i requires 0 <= i < |tokens| => Resaved(tokens[i]))
  }

  lemma SerializeByLines(rows: seq<EnvEntry>, lines: seq<string>)
    requires |rows| == |lines|
    requires forall i :: 0 <= i < |rows| ==> EntryText(rows[i]) == lines[i]
    ensures Serialize(rows) == JoinLines(lines)
  {
    assert Texts(rows) == lines;
  }

  lemma ResavedToken(content: string, i: nat)
    requires i < |ScanLines(content)|
    ensures EntryText(Parse(content)[i]) == Resaved(ScanLines(content)[i])
    ensures OneLine(Resaved(ScanLines(content)[i])) && Fits(Resaved(ScanLines(content)[i]))
  {
    hide Resaved, ParseLine, EntryText, ScanLines;
    ScannedTokens(content);
    assert ScannedToken(ScanLines(content)[i]);
    ResavedReadsTheSame(ScanLines(content)[i], i + 1);
    ResavedIsCleanLine(ScanLines(content)[i]);
  }

  /** Scanning a re-saved file gives the re-saved lines, one for one. */
  lemma ResavedFile(content: string)
    ensures Serialize(Parse(content)) == JoinLines(ResavedLines(ScanLines(content)))
    ensures ScanLines(Serialize(Parse(content))) == ResavedLines(ScanLines(content))
  {
    var lines := ResavedLines(ScanLines(content));
    forall i | 0 <= i < |lines|
      ensures EntryText(Parse(content)[i]) == lines[i] && OneLine(lines[i]) && Fits(lines[i])
    {
      ResavedToken(content, i);
    }
    SerializeByLines(Parse(content), lines);
    ScanOfJoined(lines);
    assert Fitting(lines) == lines;
  }

  /** Saving an untouched file a second time changes nothing, whatever the file holds. */
  lemma SecondSaveChangesNothing(content: string)
    ensures var once := Serialize(Parse(content));
            Serialize(Parse(once)) == once
  {
    var once := Serialize(Parse(content));
    var tokens := ScanLines(content);
    ResavedFile(content);
    ResavedFile(once);
    var lines := ResavedLines(tokens);
    forall i | 0 <= i < |lines|
      ensures Resaved(lines[i]) == lines[i]
    {
      ResavedReadsTheSame(tokens[i], 0);
      ResavedReadsTheSame(lines[i], 0);
    }
    assert ResavedLines(lines) == lines;
  }

  lemma KeptRow(tokens: seq<string>, i: nat)
    requires i < |tokens| && !VanishingQuote(ParseTokens(tokens, 0)[i])
    ensures ParseTokens(ResavedLines(tokens), 0)[i] == ParseTokens(tokens, 0)[i]
  {
    hide Resaved, ParseLine, VanishingQuote;
    ResavedReadsTheSame(tokens[i], i + 1);
  }

  lemma LostRow(tokens: seq<string>, i: nat)
    requires i < |tokens| && VanishingQuote(ParseTokens(tokens, 0)[i])
    ensures ParseTokens(ResavedLines(tokens), 0)[i].quote == ""
  {
    hide Resaved, ParseLine;
    ResavedReadsTheSame(tokens[i], i + 1);
    BlankLine(i + 1);
  }

  /** The rows survive a save exactly when none is an empty quotation without a key. */
  lemma RowsSurviveSave(content: string)
    ensures Parse(Serialize(Parse(content))) == Parse(content)
       <==> forall e :: e in Parse(content) ==> !VanishingQuote(e)
  {
    var tokens := ScanLines(content);
    ResavedFile(content);
    RowsSurvive(tokens, ParseTokens(tokens, 0), ParseTokens(ResavedLines(tokens), 0));
  }

  lemma RowsSurvive(tokens: seq<string>, rows: seq<EnvEntry>, back: seq<EnvEntry>)
    requires rows == ParseTokens(tokens, 0) && back == ParseTokens(ResavedLines(tokens), 0)
    ensures back == rows <==> forall e :: e in rows ==> !VanishingQuote(e)
  {
    if e :| e in rows && VanishingQuote(e) {
      var i: nat :| i < |rows| && rows[i] == e;
      LostRow(tokens, i);
    } else {
      forall i: nat | i < |rows|
        ensures back[i] == rows[i]
      {
        assert rows[i] in rows;
        KeptRow(tokens, i);
      }
    }
  }

  /** The witness: `=''` comes back as a blank row. */
  lemma EmptyQuotationVanishes(lineNum: nat)
    ensures ParseLine("=\'\'", lineNum) == EnvEntry("", "", lineNum, false, "'", "")
    ensures EntryText(ParseLine("=\'\'", lineNum)) == ""
    ensures ParseLine("", lineNum) == EnvEntry("", "", lineNum, false, "", "")
  {
    hide Trim, ParseLine;
    var raw := "\'\'";
    assert raw[1..] == "'" && FirstClose(raw[1..], '\'', 0) == 0;
    assert raw[2..] == "" && TrimLeft("") == "";
    assert SplitEnvValue(raw) == Pieces("", "'", "") by { assert raw[1..1] == ""; }
    TrimOfTrimmed(raw);
    ParseAssignment("", raw, lineNum);
    assert "" + "=" + raw == "=\'\'";
    BlankLine(lineNum);
  }

  // ------------------------------------------------------------- an identity save

  /** A line an unedited save leaves alone. */
  predicate CanonicalLine(l: string) {
    && Fits(l)
    && Trimmed(l)
    && (IsAssignment(l) ==>
          var eq := IndexOf(l, '=');
          && Trimmed(l[..eq])
          && Trimmed(l[eq + 1..])
          && !(eq == 0 && SplitEnvValue(l[1..]).value == ""))
  }

  lemma ResavedUnchanged(l: string)
    requires '\n' !in l && Fits(l)
    ensures Resaved(l) == l <==> CanonicalLine(l)
  {
    ResavedIsCleanLine(l);
    ResavedCases(l, 0);
    if Trimmed(l) {
      TrimOfTrimmed(l);
      if IsAssignment(l) {
        AssignmentUnchanged(l);
      }
    }
  }

  lemma SameSplit(a: string, b: string)
    requires Trim(a) + "=" + Trim(b) == a + "=" + b
    ensures Trimmed(a) && Trimmed(b)
  {
    var left, right := TrimSplits(a);
    var left', right' := TrimSplits(b);
    assert |Trim(a) + "=" + Trim(b)| == |a + "=" + b|;
    TrimYieldsTrimmed(a);
    TrimYieldsTrimmed(b);
  }

  lemma AssignmentUnchanged(l: string)
    requires IsAssignment(l)
    ensures var eq := IndexOf(l, '=');
            && (KeyText(l) + "=" + ValueText(l) == l <==> Trimmed(l[..eq]) && Trimmed(l[eq + 1..]))
            && (Trimmed(l[..eq]) ==> KeyText(l) == l[..eq])
            && (Trimmed(l[eq + 1..]) ==> ValueText(l) == l[eq + 1..])
  {
    var eq := IndexOf(l, '=');
    var a, b := l[..eq], l[eq + 1..];
    assert l == a + "=" + b;
    if Trimmed(a) { TrimOfTrimmed(a); }
    if Trimmed(b) { TrimOfTrimmed(b); }
    if KeyText(l) + "=" + ValueText(l) == l {
      SameSplit(a, b);
    }
  }

  /** An unedited save is byte-identical exactly on newline-terminated canonical files. */
  lemma UneditedSaveIsIdentity(content: string)
    ensures Serialize(Parse(content)) == content
       <==> EndsWithNewline(content) && forall l :: l in AllLines(content) ==> CanonicalLine(l)
  {
    var tokens := ScanLines(content);
    var lines := ResavedLines(tokens);
    ScannedTokens(content);
    ResavedFile(content);
    forall i | 0 <= i < |tokens|
      ensures OneLine(lines[i])
    {
      ResavedIsCleanLine(tokens[i]);
    }
    if Serialize(Parse(content)) == content {
      JoinedEndsWithNewline(lines);
      AllLinesOfJoined(lines);
      assert tokens == lines;
      forall l | l in AllLines(content)
        ensures CanonicalLine(l)
      {
        var i :| 0 <= i < |lines| && lines[i] == l;
        ResavedUnchanged(tokens[i]);
      }
    }
    if EndsWithNewline(content) && forall l :: l in AllLines(content) ==> CanonicalLine(l) {
      CanonicalFileIsKept(content);
    }
  }

  lemma CanonicalFileIsKept(content: string)
    requires EndsWithNewline(content) && forall l :: l in AllLines(content) ==> CanonicalLine(l)
    ensures Serialize(Parse(content)) == content
  {
    var all := AllLines(content);
    JoinedAllLines(content);
    forall i | 0 <= i < |all|
      ensures OneLine(all[i]) && Resaved(all[i]) == all[i] && Fits(all[i])
    {
      assert all[i] in all;
      ResavedUnchanged(all[i]);
    }
    ScanOfJoined(all);
    assert Fitting(all) == all;
    ResavedFile(content);
    assert ResavedLines(all) == all;
  }
}
