/**
 The checks on rows nobody edited: what the reader makes of a file, sent back as it
 is, is refused only for a carriage return or for a value without a key.
 */
module EnvUnedited {
  import opened Text
  import opened Wrappers
  import opened EnvFile
  import opened EnvRoundTrip
  import opened EnvValidation

  // ------------------------------------------------------------ inline comments

  /** White space and then a "#" text that begins at k; after an unquoted value the space before it is a " ". */
  predicate CommentAt(c: string, quote: string, k: nat) {
    k < |c| && AllSpaces(c[..k]) && c[k] == '#' && (quote == "" ==> k > 0 && c[k - 1] == ' ')
  }

  lemma LeadingSpacesAt(c: string, k: nat)
    requires k < |c| && AllSpaces(c[..k]) && !IsSpace(c[k])
    ensures LeadingSpaces(c) == k
  {
    assert c == c[..k] + c[k..];
    TrimLeftOfPadded(c[..k], c[k..]);
  }

  /** The inline comments let through, over all rows. */
  lemma InlineCommentsAccepted(e: EnvEntry)
    ensures InlineCommentFault(e) == None
       <==> e.inlineComment == ""
            || (!HasNewline(e.inlineComment) && exists k: nat :: CommentAt(e.inlineComment, e.quote, k))
  {
    var c := e.inlineComment;
    LeadingSpacesSpec(c);
    var n := LeadingSpaces(c);
    assert c[..|c| - |TrimLeft(c)|] == c[..n];
    if InlineCommentFault(e) == None && c != "" {
      assert c[n] == TrimLeft(c)[0];
      assert CommentAt(c, e.quote, n);
    }
    if c != "" && exists k: nat :: CommentAt(c, e.quote, k) {
      var k: nat :| CommentAt(c, e.quote, k);
      LeadingSpacesAt(c, k);
      assert TrimLeft(c)[0] == c[k];
    }
  }

  // ----------------------------------------------------------- what splitting gives

  /** The value inside a quotation holds no closing quote and ends in no escape. */
  lemma QuotedValueIsClean(raw: string)
    requires QuotedShape(raw)
    ensures var p := SplitEnvValue(raw);
            && IsQuoteText(p.quote) && FirstClose(p.value, p.quote[0], 0) == -1 && !EscapedAt(p.value, |p.value|)
  {
    var q, s := raw[0], raw[1..];
    var end := FirstClose(s, q, 0);
    var value := s[..end];
    assert raw[1..1 + end] == value && s == value + s[end..];
    EscapeLooksBack(value, s[end..], end);
    CloseInExtension(value, s[end..], q, 0);
  }

  lemma EndsInNoSpace(c: string)
    requires c != "" && !IsSpace(c[|c| - 1])
    ensures LeadingSpaces(c) < |c| && TrimLeft(c) != ""
  {
    LeadingSpacesSpec(c);
    var k := LeadingSpaces(c);
    assert c == c[..k] + c[k..];
  }

  /** What follows a closed quotation of a trimmed text is nothing, or space and a comment. */
  lemma QuotedCommentShape(raw: string)
    requires QuotedShape(raw) && Trimmed(raw)
    ensures var p := SplitEnvValue(raw);
            p.inlineComment == "" || exists k: nat :: CommentAt(p.inlineComment, p.quote, k)
  {
    var c := raw[FirstClose(raw[1..], raw[0], 0) + 2..];
    if c != "" {
      LeadingSpacesSpec(c);
      var k := LeadingSpaces(c);
      assert c[|c| - 1] == raw[|raw| - 1];
      EndsInNoSpace(c);
      assert c[k] == TrimLeft(c)[0];
      assert CommentAt(c, [raw[0]], k);
    }
  }

  /** What follows an unquoted value begins with the space before its comment. */
  lemma BareCommentShape(raw: string)
    requires !QuotedShape(raw)
    ensures var p := SplitEnvValue(raw);
            p.quote == "" && (p.inlineComment == "" || exists k: nat :: CommentAt(p.inlineComment, "", k))
  {
    var i := IndexOfSpaceHash(raw);
    if i != -1 {
      var value := TrimRight(raw[..i]);
      KeptLengthSpec(raw[..i]);
      var c, k := raw[|value|..], i + 1 - |value|;
      assert c[k] == '#' && c[k - 1] == ' ';
      forall j | 0 <= j < k ensures IsSpace(c[..k][j]) {
        if j < k - 1 { assert c[j] == raw[..i][|value|..][j]; }
      }
      assert CommentAt(c, "", k);
    }
  }

  // -------------------------------------------------------------- rows of the reader

  /** A variable row as the reader makes it passes the checks on quotes, and on comments but for a carriage return. */
  lemma SplitPassesQuoting(e: EnvEntry, raw: string)
    requires Trimmed(raw) && SplitEnvValue(raw) == Pieces(e.value, e.quote, e.inlineComment)
    ensures QuotingFault(e) == None <==> !HasNewline(e.inlineComment)
  {
    hide SplitEnvValue, QuotedShape, FirstClose, EscapedAt;
    InlineCommentsAccepted(e);
    if QuotedShape(raw) {
      QuotedValueIsClean(raw);
      QuotedCommentShape(raw);
    } else {
      BareCommentShape(raw);
    }
  }

  /** What a row holds, without the line breaks and keys that the checks are about. */
  predicate Clean(e: EnvEntry) {
    !HasNewline(e.key) && !HasNewline(e.value) && !HasNewline(e.inlineComment)
  }

  /** Of the rows the reader makes, the checks refuse exactly a value without a key and a carriage return. */
  lemma ReadRowAccepted(text: string, lineNum: nat)
    requires '\n' !in text && Fits(text)
    ensures var e := ParseLine(text, lineNum);
            EntryFault(e) == None <==> (e.key == "" && e.value == "") || (Clean(e) && (e.comment || e.key != ""))
  {
    hide SplitEnvValue, Serialize, Parse, QuotingFault, Fits;
    var t, e := Trim(text), ParseLine(text, lineNum);
    ResavedCases(text, lineNum);
    if IsAssignment(t) {
      SplitPassesQuoting(e, ValueText(t));
    } else if t != "" {
      ReadCommentAccepted(text, lineNum);
    }
  }

  lemma ReadCommentAccepted(text: string, lineNum: nat)
    requires Fits(text) && '\n' !in text && Trim(text) != "" && !IsAssignment(Trim(text))
    ensures var e := ParseLine(text, lineNum); EntryFault(e) == None <==> Clean(e)
  {
    var t := Trim(text);
    TrimYieldsTrimmed(text);
    Utf8LengthOfTrim(text);
    assert t[0] == '#' || '=' !in t;
    CommentRowsAccepted(ParseLine(text, lineNum));
  }

  /** An unedited table is accepted exactly when no row holds a carriage return or a value without a key. */
  lemma UneditedTableAccepted(content: string)
    ensures Accepted(Parse(content))
       <==> forall e :: e in Parse(content) ==>
              (e.key == "" && e.value == "") || (Clean(e) && (e.comment || e.key != ""))
  {
    hide ParseLine, EntryFault, Clean, Fits, ScanLines;
    var tokens := ScanLines(content);
    ScannedTokens(content);
    forall i | 0 <= i < |tokens|
      ensures var e := Parse(content)[i];
              EntryFault(e) == None <==> (e.key == "" && e.value == "") || (Clean(e) && (e.comment || e.key != ""))
    {
      assert ScannedToken(tokens[i]);
      ReadRowAccepted(tokens[i], i + 1);
    }
  }
}
