/** The ASSA tag autocompletion of the subtitle text box
    (`AssaIntellisense`): which tag the cursor is in, which word has been
    typed so far, which entries of the tag table the list box offers, and
    which entry it preselects. */
module AssaIntellisense {
  import opened Basics
  import opened AssaKeywords

  // ----- The .NET string operations the completion uses -----

  /** `char.IsWhiteSpace`: the Unicode space separators, the line and
      paragraph separators, and the control characters U+0009 to U+000D and U+0085. */
  predicate IsWhiteSpace(c: char)
  {
    ('\t' <= c <= '\r') || c == ' ' || c == '\U{0085}' || c == '\U{00A0}' || c == '\U{1680}' ||
    ('\U{2000}' <= c <= '\U{200A}') || c == '\U{2028}' || c == '\U{2029}' || c == '\U{202F}' ||
    c == '\U{205F}' || c == '\U{3000}'
  }

  /** `string.TrimEnd()`: the string without its trailing white space. */
  function TrimEnd(s: string): (t: string)
    ensures |t| <= |s| && t == s[..|t|]
    ensures |t| > 0 ==> !IsWhiteSpace(t[|t| - 1])
    ensures forall k :: |t| <= k < |s| ==> IsWhiteSpace(s[k])
  {
    if |s| > 0 && IsWhiteSpace(s[|s| - 1]) then TrimEnd(s[..|s| - 1]) else s
  }

  /** `string.TrimStart(c)`: the string without its leading `c`s. */
  function TrimStart(s: string, c: char): (t: string)
    ensures |t| <= |s| && t == s[|s| - |t|..]
    ensures |t| > 0 ==> t[0] != c
    ensures forall k :: 0 <= k < |s| - |t| ==> s[k] == c
  {
    if |s| > 0 && s[0] == c then TrimStart(s[1..], c) else s
  }

  predicate StartsWithChar(s: string, c: char)
  {
    |s| > 0 && s[0] == c
  }

  predicate EndsWithChar(s: string, c: char)
  {
    |s| > 0 && s[|s| - 1] == c
  }

  predicate StartsWith(s: string, prefix: string)
  {
    |prefix| <= |s| && s[..|prefix|] == prefix
  }

  predicate EndsWith(s: string, suffix: string)
  {
    |suffix| <= |s| && s[|s| - |suffix|..] == suffix
  }

  /** The case folding of `StringComparison.OrdinalIgnoreCase` on ASCII letters. */
  function ToUpper(c: char): char
  {
    if 'a' <= c <= 'z' then (c as int - 32) as char else c
  }

  /** `s.StartsWith(prefix, StringComparison.OrdinalIgnoreCase)`. */
  predicate StartsWithIgnoreCase(s: string, prefix: string)
  {
    |prefix| <= |s| && forall k :: 0 <= k < |prefix| ==> ToUpper(s[k]) == ToUpper(prefix[k])
  }

  predicate OccursAt(s: string, pattern: string, i: int)
  {
    0 <= i && i + |pattern| <= |s| && s[i..i + |pattern|] == pattern
  }

  /** `s.LastIndexOf(pattern, StringComparison.Ordinal)`: the last position
      where `pattern` occurs, or -1. */
  function LastIndexOf(s: string, pattern: string): (i: int)
    ensures i == -1 || OccursAt(s, pattern, i)
    ensures forall j :: OccursAt(s, pattern, j) ==> j <= i
  {
    if |s| < |pattern| then -1
    else if OccursAt(s, pattern, |s| - |pattern|) then |s| - |pattern|
    else
      var i := LastIndexOf(s[..|s| - 1], pattern);
      assert forall j :: OccursAt(s, pattern, j) && j < |s| - |pattern| ==> OccursAt(s[..|s| - 1], pattern, j) by {
        forall j | OccursAt(s, pattern, j) && j < |s| - |pattern|
          ensures OccursAt(s[..|s| - 1], pattern, j)
        {
          assert s[..|s| - 1][j..j + |pattern|] == s[j..j + |pattern|];
        }
      }
      if i >= 0 then
        assert s[..|s| - 1][i..i + |pattern|] == s[i..i + |pattern|];
        i
      else i
  }

  // ----- The tag around the cursor -----

  /** `GetInsideTag`: from the last backslash before the cursor up to, not
      including, the first backslash or closing brace at or after the cursor;
      empty when either is missing. */
  function GetInsideTag(text: string, selectionStart: int): (r: string)
    requires 0 <= selectionStart <= |text|
    ensures r == "" <==>
      (forall k :: 0 <= k < selectionStart ==> text[k] != '\\') ||
      (forall k :: selectionStart <= k < |text| ==> text[k] != '\\' && text[k] != '}')
    ensures r != "" ==>
      var lo := LastIndexOfAny(text[..selectionStart], {'\\'});
      0 <= lo < selectionStart <= lo + |r| < |text| &&
      r == text[lo..lo + |r|] && text[lo + |r|] in {'\\', '}'} &&
      r[0] == '\\' && (forall k :: 0 < k < |r| ==> r[k] != '\\') &&
      (forall k :: selectionStart - lo <= k < |r| ==> r[k] != '}')
  {
    var before := text[..selectionStart];
    var lastStart := LastIndexOfAny(before, {'\\'});
    if lastStart < 0 then
      assert forall k :: 0 <= k < selectionStart ==> before[k] == text[k];
      ""
    else
      var endTagIndex := IndexOfAny(text, {'\\', '}'}, selectionStart);
      if endTagIndex > 0 then
        assert forall k :: lastStart < k < selectionStart ==> before[k] == text[k];
        text[lastStart..endTagIndex]
      else
        ""
  }

  // ----- The closing tag to preselect -----

  /** The opening tags the completion recognises, each with its closing tag. */
  const ClosingTags: seq<(string, string)> :=
    [("{\\i1}", "{\\i0}"), ("{\\u1}", "{\\u0}"), ("{\\b1}", "{\\b0}"), ("{\\s1}", "{\\s0}"), ("{\\be1}", "{\\be0}")]

  /** The closing tag for a recognised tag at the start of `s`, or empty. */
  function ClosingTagAtStart(s: string): (r: string)
    ensures r == "" || (|r| > 2 && r[0] == '{' && r[1] == '\\')
  {
    if StartsWith(s, "{\\i1}") then "{\\i0}"
    else if StartsWith(s, "{\\u1}") then "{\\u0}"
    else if StartsWith(s, "{\\b1}") then "{\\b0}"
    else if StartsWith(s, "{\\s1}") then "{\\s0}"
    else if StartsWith(s, "{\\be1}") then "{\\be0}"
    else ""
  }

  /** `GetEndTagFromLastTagInText`: the closing tag for the tag that starts
      at the last `{\` of the text, or empty. */
  function GetEndTagFromLastTagInText(text: string): (r: string)
    ensures r == "" || (|r| > 2 && r[0] == '{' && r[1] == '\\')
  {
    var lastIdx := LastIndexOf(text, "{\\");
    if lastIdx >= 0 then ClosingTagAtStart(text[lastIdx..]) else ""
  }

  /** The recognised opening tags exclude each other, so the closing tag found
      is the one paired with the tag that is there. */
  lemma {:induction false} ClosingTagAtStartIff(s: string)
    ensures forall k :: 0 <= k < |ClosingTags| ==>
      (ClosingTagAtStart(s) == ClosingTags[k].1 <==> StartsWith(s, ClosingTags[k].0))
    ensures ClosingTagAtStart(s) == "" <==> forall k :: 0 <= k < |ClosingTags| ==> !StartsWith(s, ClosingTags[k].0)
  {
    // The recognised opening tags differ at their third or fourth character.
    assert StartsWith(s, "{\\i1}") ==> s[2] == 'i';
    assert StartsWith(s, "{\\u1}") ==> s[2] == 'u';
    assert StartsWith(s, "{\\b1}") ==> s[2] == 'b' && s[3] == '1';
    assert StartsWith(s, "{\\s1}") ==> s[2] == 's';
    assert StartsWith(s, "{\\be1}") ==> s[2] == 'b' && s[3] == 'e';
    var r := ClosingTagAtStart(s);
    forall k | 0 <= k < |ClosingTags|
      ensures r == ClosingTags[k].1 <==> StartsWith(s, ClosingTags[k].0)
    {
      assert ClosingTags[k] in ClosingTags;
    }
    if forall k :: 0 <= k < |ClosingTags| ==> !StartsWith(s, ClosingTags[k].0) {
      assert !StartsWith(s, ClosingTags[0].0) && !StartsWith(s, ClosingTags[1].0) && !StartsWith(s, ClosingTags[2].0);
      assert !StartsWith(s, ClosingTags[3].0) && !StartsWith(s, ClosingTags[4].0);
    }
  }

  /** The proposed closing tag is the one paired with the recognised tag
      opened at the last `{\`, and there is none exactly when no recognised
      tag is opened there. */
  lemma EndTagClosesLastOpenedTag(text: string)
    ensures var lastIdx := LastIndexOf(text, "{\\");
      forall k :: 0 <= k < |ClosingTags| ==>
        (GetEndTagFromLastTagInText(text) == ClosingTags[k].1 <==>
          lastIdx >= 0 && StartsWith(text[lastIdx..], ClosingTags[k].0))
    ensures var lastIdx := LastIndexOf(text, "{\\");
      GetEndTagFromLastTagInText(text) == "" <==>
        lastIdx < 0 || forall k :: 0 <= k < |ClosingTags| ==> !StartsWith(text[lastIdx..], ClosingTags[k].0)
  {
    var lastIdx := LastIndexOf(text, "{\\");
    if lastIdx >= 0 {
      ClosingTagAtStartIff(text[lastIdx..]);
    } else {
      forall k | 0 <= k < |ClosingTags|
        ensures ClosingTags[k].1 != ""
      {
        assert ClosingTags[k] in ClosingTags;
      }
    }
  }

  // ----- The word typed so far -----
  //
  // The completion works against a tag table; the list box uses `Keywords`.
  // Every table entry is a `{\tag}` block, which is all the proofs below use.

  /** The characters that end a typed word. */
  const Separators: set<char> := {' ', ',', '.', '"', '\'', '}'}

  /** `keywords.Any(p => p.Value.StartsWith(s, StringComparison.OrdinalIgnoreCase))`. */
  predicate AnyStartsWith(keywords: seq<Keyword>, s: string)
  {
    |keywords| > 0 && (StartsWithIgnoreCase(keywords[0].Value(), s) || AnyStartsWith(keywords[1..], s))
  }

  /** `AnyStartsWith` holds exactly when some entry starts with the string. */
  lemma {:induction false} AnyStartsWithIff(keywords: seq<Keyword>, s: string)
    ensures AnyStartsWith(keywords, s) <==> exists kw :: kw in keywords && StartsWithIgnoreCase(kw.Value(), s)
  {
    if |keywords| > 0 {
      AnyStartsWithIff(keywords[1..], s);
      assert forall kw :: kw in keywords <==> kw == keywords[0] || kw in keywords[1..];
    }
  }

  /** No entry starts with a string whose second character is not a backslash. */
  lemma NoKeywordWithoutBackslashSecond(keywords: seq<Keyword>, s: string)
    requires |s| >= 2 && s[1] != '\\'
    ensures !AnyStartsWith(keywords, s)
  {
    AnyStartsWithIff(keywords, s);
    forall kw | kw in keywords
      ensures !StartsWithIgnoreCase(kw.Value(), s)
    {
      assert kw.Value()[1] == '\\';
    }
  }

  /** The opening brace starts every entry. */
  lemma BraceStartsEveryKeyword(keywords: seq<Keyword>)
    requires |keywords| > 0
    ensures AnyStartsWith(keywords, "{")
  {
    assert keywords[0].Value()[0] == '{';
  }

  /** `GetLastString` as the source writes it: after the last separator it
      keeps the separator and the character before it (`Remove(0, index - 1)`),
      and throws when the separator is the first character. */
  function GetLastStringAsWritten(keywords: seq<Keyword>, s: string): Result<string>
  {
    if EndsWithChar(TrimEnd(s), '\\') then Ok("")
    else
      var lastIndexOfStartBracket := LastIndexOfAny(s, {'\\'});
      var lastSeparatorIndex := LastIndexOfAny(s, Separators);
      if lastIndexOfStartBracket > lastSeparatorIndex then Ok(s[lastIndexOfStartBracket..])
      else if lastSeparatorIndex >= 0 then
        if lastSeparatorIndex - 1 < 0 then Failure(ArgumentOutOfRange)
        else
          var rest := s[lastSeparatorIndex - 1..];
          if AnyStartsWith(keywords, rest) then Ok(rest) else Ok("")
      else if AnyStartsWith(keywords, s) then Ok(s)
      else Ok("")
  }

  /** `GetLastString` with the word after the last separator: empty after a
      trailing backslash; else the text from the last backslash when no
      separator follows it; else the word after the last separator, or the
      whole text when there is no separator, provided some entry starts with
      it. */
  function GetLastString(keywords: seq<Keyword>, s: string): string
  {
    if EndsWithChar(TrimEnd(s), '\\') then ""
    else
      var lastIndexOfStartBracket := LastIndexOfAny(s, {'\\'});
      var lastSeparatorIndex := LastIndexOfAny(s, Separators);
      if lastIndexOfStartBracket > lastSeparatorIndex then s[lastIndexOfStartBracket..]
      else if lastSeparatorIndex >= 0 then
        var word := s[lastSeparatorIndex + 1..];
        if AnyStartsWith(keywords, word) then word else ""
      else if AnyStartsWith(keywords, s) then s
      else ""
  }

  /** What the completion counts as a typed word of `s`: a suffix of `s`
      without separators; empty, a backslash tag with no further backslash,
      or a backslash-free prefix of some entry; never ending with a backslash. */
  predicate IsTypedWord(keywords: seq<Keyword>, s: string, r: string)
  {
    |r| <= |s| && r == s[|s| - |r|..] &&
    (forall k :: 0 <= k < |r| ==> r[k] !in Separators) &&
    (forall k :: 0 < k < |r| ==> r[k] != '\\') &&
    (r != "" ==> r[0] == '\\' || (AnyStartsWith(keywords, r) && r[0] != '\\')) &&
    !EndsWithChar(r, '\\')
  }

  /** The text from a backslash followed by no backslash, no separator and
      no trailing backslash is a typed word. */
  lemma TagIsTypedWord(keywords: seq<Keyword>, s: string, from: int)
    requires 0 <= from < |s| && s[from] == '\\' && !EndsWithChar(s, '\\')
    requires forall j :: from < j < |s| ==> s[j] != '\\' && s[j] !in Separators
    ensures IsTypedWord(keywords, s, s[from..])
  {
  }

  /** The text after a position, free of backslashes and separators, that
      some entry starts with is a typed word. */
  lemma WordIsTypedWord(keywords: seq<Keyword>, s: string, after: int)
    requires -1 <= after < |s|
    requires forall j :: after < j < |s| ==> s[j] != '\\' && s[j] !in Separators
    requires AnyStartsWith(keywords, s[after + 1..])
    ensures IsTypedWord(keywords, s, s[after + 1..])
  {
  }

  /** After a trailing backslash, or when nothing fits, the typed word is
      empty. */
  lemma NothingTyped(keywords: seq<Keyword>, s: string, lastIndexOfStartBracket: int, lastSeparatorIndex: int)
    requires lastIndexOfStartBracket == LastIndexOfAny(s, {'\\'})
    requires lastSeparatorIndex == LastIndexOfAny(s, Separators)
    requires EndsWithChar(TrimEnd(s), '\\') ||
      (lastIndexOfStartBracket <= lastSeparatorIndex &&
       !(lastSeparatorIndex >= 0 && AnyStartsWith(keywords, s[lastSeparatorIndex + 1..])) &&
       !(lastSeparatorIndex < 0 && AnyStartsWith(keywords, s)))
    ensures GetLastString(keywords, s) == ""
  {
  }

  /** With no separator after the last backslash, the typed word is the text
      from that backslash, which does not end the trimmed text. */
  lemma TagTyped(keywords: seq<Keyword>, s: string, lastIndexOfStartBracket: int, lastSeparatorIndex: int)
    requires !EndsWithChar(TrimEnd(s), '\\')
    requires lastIndexOfStartBracket == LastIndexOfAny(s, {'\\'})
    requires lastSeparatorIndex == LastIndexOfAny(s, Separators)
    requires lastIndexOfStartBracket > lastSeparatorIndex
    ensures GetLastString(keywords, s) == s[lastIndexOfStartBracket..]
    ensures !EndsWithChar(s, '\\')
  {
    // A trailing backslash is no white space, so it would survive the trim.
    assert EndsWithChar(s, '\\') ==> TrimEnd(s) == s;
  }

  /** With a separator after the last backslash, or neither, the typed word
      is the text after the separator when some entry starts with it. */
  lemma WordTyped(keywords: seq<Keyword>, s: string, lastIndexOfStartBracket: int, lastSeparatorIndex: int)
    requires !EndsWithChar(TrimEnd(s), '\\')
    requires lastIndexOfStartBracket == LastIndexOfAny(s, {'\\'})
    requires lastSeparatorIndex == LastIndexOfAny(s, Separators)
    requires lastIndexOfStartBracket <= lastSeparatorIndex
    requires AnyStartsWith(keywords, s[lastSeparatorIndex + 1..])
    ensures GetLastString(keywords, s) == s[lastSeparatorIndex + 1..]
  {
    assert s[0..] == s;
  }

  /** Each of the three outcomes of `GetLastString` is a typed word. */
  lemma TagTypedIsTypedWord(keywords: seq<Keyword>, s: string, lastIndexOfStartBracket: int, lastSeparatorIndex: int)
    requires !EndsWithChar(TrimEnd(s), '\\')
    requires lastIndexOfStartBracket == LastIndexOfAny(s, {'\\'})
    requires lastSeparatorIndex == LastIndexOfAny(s, Separators)
    requires lastIndexOfStartBracket > lastSeparatorIndex
    ensures IsTypedWord(keywords, s, GetLastString(keywords, s))
  {
    TagTyped(keywords, s, lastIndexOfStartBracket, lastSeparatorIndex);
    TagIsTypedWord(keywords, s, lastIndexOfStartBracket);
  }

  lemma WordTypedIsTypedWord(keywords: seq<Keyword>, s: string, lastIndexOfStartBracket: int, lastSeparatorIndex: int)
    requires !EndsWithChar(TrimEnd(s), '\\')
    requires lastIndexOfStartBracket == LastIndexOfAny(s, {'\\'})
    requires lastSeparatorIndex == LastIndexOfAny(s, Separators)
    requires lastIndexOfStartBracket <= lastSeparatorIndex
    requires AnyStartsWith(keywords, s[lastSeparatorIndex + 1..])
    ensures IsTypedWord(keywords, s, GetLastString(keywords, s))
  {
    WordTyped(keywords, s, lastIndexOfStartBracket, lastSeparatorIndex);
    WordIsTypedWord(keywords, s, lastSeparatorIndex);
  }

  lemma NothingTypedIsTypedWord(keywords: seq<Keyword>, s: string, lastIndexOfStartBracket: int, lastSeparatorIndex: int)
    requires lastIndexOfStartBracket == LastIndexOfAny(s, {'\\'})
    requires lastSeparatorIndex == LastIndexOfAny(s, Separators)
    requires EndsWithChar(TrimEnd(s), '\\') ||
      (lastIndexOfStartBracket <= lastSeparatorIndex &&
       !(lastSeparatorIndex >= 0 && AnyStartsWith(keywords, s[lastSeparatorIndex + 1..])) &&
       !(lastSeparatorIndex < 0 && AnyStartsWith(keywords, s)))
    ensures IsTypedWord(keywords, s, GetLastString(keywords, s))
  {
    NothingTyped(keywords, s, lastIndexOfStartBracket, lastSeparatorIndex);
    assert s[|s|..] == "";
  }

  /** Whatever `GetLastString` returns is a typed word of the text. */
  lemma GetLastStringIsTypedWord(keywords: seq<Keyword>, s: string)
    ensures IsTypedWord(keywords, s, GetLastString(keywords, s))
  {
    var lastIndexOfStartBracket := LastIndexOfAny(s, {'\\'});
    var lastSeparatorIndex := LastIndexOfAny(s, Separators);
    if !EndsWithChar(TrimEnd(s), '\\') && lastIndexOfStartBracket > lastSeparatorIndex {
      TagTypedIsTypedWord(keywords, s, lastIndexOfStartBracket, lastSeparatorIndex);
    } else if !EndsWithChar(TrimEnd(s), '\\') && AnyStartsWith(keywords, s[lastSeparatorIndex + 1..]) {
      WordTypedIsTypedWord(keywords, s, lastIndexOfStartBracket, lastSeparatorIndex);
    } else {
      NothingTypedIsTypedWord(keywords, s, lastIndexOfStartBracket, lastSeparatorIndex);
    }
  }

  /** The source's version agrees with the corrected one except after a
      separator, where it either throws (separator first) or finds nothing:
      the separator it keeps can never be the backslash every entry has second. */
  lemma AsWrittenDiffersOnlyAfterSeparator(keywords: seq<Keyword>, s: string)
    ensures var lastIndexOfStartBracket := LastIndexOfAny(s, {'\\'});
      var lastSeparatorIndex := LastIndexOfAny(s, Separators);
      GetLastStringAsWritten(keywords, s) ==
        if !EndsWithChar(TrimEnd(s), '\\') && lastIndexOfStartBracket <= lastSeparatorIndex && lastSeparatorIndex >= 0 then
          (if lastSeparatorIndex == 0 then Failure(ArgumentOutOfRange) else Ok(""))
        else Ok(GetLastString(keywords, s))
  {
    var lastIndexOfStartBracket := LastIndexOfAny(s, {'\\'});
    var lastSeparatorIndex := LastIndexOfAny(s, Separators);
    if !EndsWithChar(TrimEnd(s), '\\') && lastIndexOfStartBracket <= lastSeparatorIndex && lastSeparatorIndex >= 0 {
      AsWrittenAfterSeparator(keywords, s, lastIndexOfStartBracket, lastSeparatorIndex);
    } else {
      AsWrittenElsewhere(keywords, s, lastIndexOfStartBracket, lastSeparatorIndex);
    }
  }

  /** After a separator the source throws or keeps a word no entry starts with. */
  lemma AsWrittenAfterSeparator(keywords: seq<Keyword>, s: string, lastIndexOfStartBracket: int, lastSeparatorIndex: int)
    requires lastIndexOfStartBracket == LastIndexOfAny(s, {'\\'})
    requires lastSeparatorIndex == LastIndexOfAny(s, Separators)
    requires !EndsWithChar(TrimEnd(s), '\\') && lastIndexOfStartBracket <= lastSeparatorIndex && lastSeparatorIndex >= 0
    ensures GetLastStringAsWritten(keywords, s) ==
      if lastSeparatorIndex == 0 then Failure(ArgumentOutOfRange) else Ok("")
  {
    if lastSeparatorIndex >= 1 {
      AsWrittenWordBeforeSeparator(keywords, s, lastIndexOfStartBracket, lastSeparatorIndex);
    }
  }

  /** The source reads from the character before the separator, which no
      entry starts with, so it offers nothing. */
  lemma AsWrittenWordBeforeSeparator(keywords: seq<Keyword>, s: string, lastIndexOfStartBracket: int, lastSeparatorIndex: int)
    requires lastIndexOfStartBracket == LastIndexOfAny(s, {'\\'})
    requires lastSeparatorIndex == LastIndexOfAny(s, Separators)
    requires !EndsWithChar(TrimEnd(s), '\\') && lastIndexOfStartBracket <= lastSeparatorIndex && lastSeparatorIndex >= 1
    ensures GetLastStringAsWritten(keywords, s) == Ok("")
  {
    NoKeywordAcrossSeparator(keywords, s, lastSeparatorIndex);
  }

  /** A word whose second character is a separator starts no entry. */
  lemma NoKeywordAcrossSeparator(keywords: seq<Keyword>, s: string, at: int)
    requires 1 <= at < |s| && s[at] in Separators
    ensures !AnyStartsWith(keywords, s[at - 1..])
  {
    var rest := s[at - 1..];
    assert rest[1] in Separators;
    NoKeywordWithoutBackslashSecond(keywords, rest);
  }

  /** Everywhere else the source agrees with the corrected version. */
  lemma AsWrittenElsewhere(keywords: seq<Keyword>, s: string, lastIndexOfStartBracket: int, lastSeparatorIndex: int)
    requires lastIndexOfStartBracket == LastIndexOfAny(s, {'\\'})
    requires lastSeparatorIndex == LastIndexOfAny(s, Separators)
    requires !(!EndsWithChar(TrimEnd(s), '\\') && lastIndexOfStartBracket <= lastSeparatorIndex && lastSeparatorIndex >= 0)
    ensures GetLastStringAsWritten(keywords, s) == Ok(GetLastString(keywords, s))
  {
  }

  /** A brace typed after a leading space makes the source throw, while the
      corrected version returns the brace. */
  lemma LeadingSeparatorThrows(keywords: seq<Keyword>)
    requires |keywords| > 0
    ensures GetLastStringAsWritten(keywords, " {") == Failure(ArgumentOutOfRange)
    ensures GetLastString(keywords, " {") == "{"
  {
    var s := " {";
    assert TrimEnd(s) == s;
    assert LastIndexOfAny(s, {'\\'}) == -1;
    assert LastIndexOfAny(s, Separators) == 0;
    assert s[1..] == "{";
    BraceStartsEveryKeyword(keywords);
  }

  /** A brace typed after a word is never recognised by the source, while the
      corrected version returns the brace. */
  lemma BraceAfterWordIsLost(keywords: seq<Keyword>)
    requires |keywords| > 0
    ensures GetLastStringAsWritten(keywords, "Hello {") == Ok("")
    ensures GetLastString(keywords, "Hello {") == "{"
  {
    var s := "Hello {";
    assert TrimEnd(s) == s;
    assert LastIndexOfAny(s, {'\\'}) == -1;
    assert LastIndexOfAny(s, Separators) == 5;
    assert s[4..] == "o {" && s[6..] == "{";
    NoKeywordWithoutBackslashSecond(keywords, "o {");
    BraceStartsEveryKeyword(keywords);
  }

  /** A string trimmed from a suffix that starts with a non-space character
      is the suffix of the trimmed string. */
  lemma {:induction false} TrimEndOfSuffix(s: string, k: int)
    requires 0 <= k < |s| && !IsWhiteSpace(s[k])
    ensures k < |TrimEnd(s)| && TrimEnd(s[k..]) == TrimEnd(s)[k..]
  {
    if IsWhiteSpace(s[|s| - 1]) {
      assert s[k..][..|s[k..]| - 1] == s[..|s| - 1][k..];
      TrimEndOfSuffix(s[..|s| - 1], k);
    }
  }

  /** A backslash tag without separator, read on its own, is found again
      whole. */
  lemma TagReadsBack(keywords: seq<Keyword>, r: string)
    requires r != "" && r[0] == '\\' && !EndsWithChar(TrimEnd(r), '\\')
    requires forall k :: 0 <= k < |r| ==> r[k] !in Separators
    requires forall k :: 0 < k < |r| ==> r[k] != '\\'
    ensures GetLastString(keywords, r) == r
  {
    assert LastIndexOfAny(r, Separators) == -1;
    assert LastIndexOfAny(r, {'\\'}) == 0;
    TagTyped(keywords, r, 0, -1);
    assert r[0..] == r;
  }

  /** A word without backslash and separator that some entry starts with,
      read on its own, is found again whole. */
  lemma WordReadsBack(keywords: seq<Keyword>, r: string)
    requires AnyStartsWith(keywords, r)
    requires forall k :: 0 <= k < |r| ==> r[k] !in Separators && r[k] != '\\'
    ensures GetLastString(keywords, r) == r
  {
    assert LastIndexOfAny(r, Separators) == -1;
    assert LastIndexOfAny(r, {'\\'}) == -1;
    assert !EndsWithChar(TrimEnd(r), '\\');
    WordTyped(keywords, r, -1, -1);
    assert r[0..] == r;
  }

  /** Reading the typed word again gives the same word, so the filter's
      second `GetLastString` is the typed word itself. */
  lemma GetLastStringIsIdempotent(keywords: seq<Keyword>, s: string)
    ensures GetLastString(keywords, GetLastString(keywords, s)) == GetLastString(keywords, s)
  {
    var r := GetLastString(keywords, s);
    GetLastStringIsTypedWord(keywords, s);
    if r != "" && r[0] == '\\' {
      assert !EndsWithChar(TrimEnd(s), '\\');
      TypedTagReadsBack(keywords, s, r);
    } else if r != "" {
      WordReadsBack(keywords, r);
    }
  }

  /** A typed word led by a backslash, read from a text that does not end
      with a backslash once trimmed, is read back whole. */
  lemma TypedTagReadsBack(keywords: seq<Keyword>, s: string, r: string)
    requires IsTypedWord(keywords, s, r) && r != "" && r[0] == '\\'
    requires !EndsWithChar(TrimEnd(s), '\\')
    ensures GetLastString(keywords, r) == r
  {
    var lo := |s| - |r|;
    TrimEndOfSuffix(s, lo);
    assert s[lo..] == r;
    TagReadsBack(keywords, r);
  }

  // ----- The offered list -----

  /** An entry of the working list: the text it inserts, its hint and flag. */
  datatype Candidate = Candidate(value: string, hint: string, allowInTransformations: bool)

  /** The table entries as list entries, without the leading brace when `trim`. */
  function Offered(keywords: seq<Keyword>, trim: bool): (cs: seq<Candidate>)
    ensures |cs| == |keywords|
  {
    seq(|keywords|, i requires 0 <= i < |keywords| =>
      var v := keywords[i].Value();
      Candidate(if trim then TrimStart(v, '{') else v, keywords[i].hint, keywords[i].allowInTransformations))
  }

  /** The entries that may appear inside an animated transform, in order. */
  function AllowedInTransformations(keywords: seq<Keyword>): (r: seq<Keyword>)
    ensures forall kw :: kw in r <==> kw in keywords && kw.allowInTransformations
  {
    if |keywords| == 0 then []
    else (if keywords[0].allowInTransformations then [keywords[0]] else []) + AllowedInTransformations(keywords[1..])
  }

  /** The working list and the word typed so far. */
  datatype Completion = Completion(candidates: seq<Candidate>, typedWord: string)

  /** Right after `\t(` only the entries allowed in transforms, without
      brace; otherwise the whole table, without braces when the typed word
      starts with a backslash. */
  function CompletionFor(keywords: seq<Keyword>, before: string): Completion
  {
    if EndsWith(before, "\\t(") then Completion(Offered(AllowedInTransformations(keywords), true), "")
    else
      var typed := GetLastString(keywords, before);
      Completion(Offered(keywords, StartsWithChar(typed, '\\')), typed)
  }

  /** The filter of the list: everything when nothing is typed, else the
      entries that start with the typed word, ignoring case. */
  predicate Matches(keywords: seq<Keyword>, c: Candidate, typedWord: string)
  {
    typedWord == "" || StartsWithIgnoreCase(c.value, GetLastString(keywords, typedWord))
  }

  function Filter(keywords: seq<Keyword>, cs: seq<Candidate>, typedWord: string): (r: seq<Candidate>)
    ensures forall c :: c in r <==> c in cs && Matches(keywords, c, typedWord)
    ensures |r| <= |cs|
  {
    if |cs| == 0 then []
    else (if Matches(keywords, cs[0], typedWord) then [cs[0]] else []) + Filter(keywords, cs[1..], typedWord)
  }

  /** `Replace("{\\", string.Empty)`: drops every `{\`, scanning left to right. */
  function RemoveTagOpeners(s: string): string
  {
    if |s| < 2 then s
    else if s[..2] == "{\\" then RemoveTagOpeners(s[2..])
    else [s[0]] + RemoveTagOpeners(s[1..])
  }

  /** `RemoveChar(c)`: drops every `c`. */
  function RemoveChar(s: string, c: char): (r: string)
    ensures forall k :: 0 <= k < |r| ==> r[k] != c
  {
    if |s| == 0 then [] else (if s[0] == c then [] else [s[0]]) + RemoveChar(s[1..], c)
  }

  /** The list shown for a continued tag: every entry without `{\` and `}`. */
  function FallbackList(cs: seq<Candidate>): seq<Candidate>
  {
    seq(|cs|, i requires 0 <= i < |cs| =>
      Candidate(RemoveChar(RemoveTagOpeners(cs[i].value), '}'), cs[i].hint, cs[i].allowInTransformations))
  }

  /** The filtered list, or the whole list stripped of tag marks when nothing
      matches a typed word ending with a backslash. */
  function Listed(keywords: seq<Keyword>, c: Completion): Completion
  {
    var filtered := Filter(keywords, c.candidates, c.typedWord);
    if |filtered| == 0 && EndsWithChar(c.typedWord, '\\') then Completion(FallbackList(c.candidates), "")
    else Completion(filtered, c.typedWord)
  }

  /** The typed word never ends with a backslash, so the stripped list of a
      continued tag is never shown. */
  lemma FallbackNeverTaken(keywords: seq<Keyword>, before: string)
    ensures var c := CompletionFor(keywords, before);
      !EndsWithChar(c.typedWord, '\\') &&
      Listed(keywords, c) == Completion(Filter(keywords, c.candidates, c.typedWord), c.typedWord)
  {
    GetLastStringIsTypedWord(keywords, before);
  }

  // ----- The list box -----

  /** An `IntellisenseItem` once added to the list box. */
  datatype Item = Item(value: string, hint: string, allowInTransformations: bool, typedWord: string, activeTagAtCursor: string)

  /** What the list box shows: nothing, or items with one of them selected. */
  datatype Popup = Hidden | Shown(items: seq<Item>, selectedIndex: nat)

  /** The items of the list box for a working list. */
  function Populated(cs: seq<Candidate>, typedWord: string, activeTagAtCursor: string): (items: seq<Item>)
    ensures |items| == |cs|
  {
    seq(|cs|, i requires 0 <= i < |cs| =>
      Item(cs[i].value, cs[i].hint, cs[i].allowInTransformations, typedWord, activeTagAtCursor))
  }

  /** Some item of the list box was made from the entry `x`. */
  predicate ListsCandidate(items: seq<Item>, x: Candidate)
  {
    exists i :: 0 <= i < |items| && Candidate(items[i].value, items[i].hint, items[i].allowInTransformations) == x
  }

  /** `Find(p => p.Value == v)` followed by `IndexOf`: the first item with
      value `v`, or -1. */
  function IndexOfValue(items: seq<Item>, v: string): (i: int)
    ensures -1 <= i < |items|
    ensures i >= 0 ==> items[i].value == v && forall j :: 0 <= j < i ==> items[j].value != v
    ensures i < 0 ==> forall j :: 0 <= j < |items| ==> items[j].value != v
  {
    if |items| == 0 then -1
    else if items[0].value == v then 0
    else
      var i := IndexOfValue(items[1..], v);
      if i < 0 then -1 else i + 1
  }

  /** `IsLastTwoTagsEqual` on a history of added tags. */
  predicate LastTwoTagsEqual(tags: seq<string>)
  {
    |tags| >= 2 && tags[|tags| - 1] == tags[|tags| - 2]
  }

  /** Adding a tag makes the last two equal exactly when it repeats the
      previous last tag. */
  lemma AddedTagRepeatsIff(tags: seq<string>, tag: string)
    ensures LastTwoTagsEqual(tags + [tag]) <==> |tags| >= 1 && tags[|tags| - 1] == tag
  {
  }

  /** The selection: the first item when nothing better is known; the
      closing tag when one is proposed and listed; else, when the last two
      added tags are equal, that tag if listed. */
  function SelectedIndex(items: seq<Item>, endTag: string, lastAddedTags: seq<string>): nat
  {
    if endTag != "" then
      var i := IndexOfValue(items, endTag);
      if i >= 0 then i else 0
    else if LastTwoTagsEqual(lastAddedTags) then
      var i := IndexOfValue(items, lastAddedTags[|lastAddedTags| - 1]);
      if i >= 0 then i else 0
    else 0
  }

  /** The list box for a working list, the tag at the cursor, the proposed
      closing tag and the added tags: hidden when the list is empty. */
  function ShowList(listed: Completion, activeTagAtCursor: string, endTag: string, lastAddedTags: seq<string>): Popup
  {
    if |listed.candidates| == 0 then Hidden
    else
      var items := Populated(listed.candidates, listed.typedWord, activeTagAtCursor);
      Shown(items, SelectedIndex(items, endTag, lastAddedTags))
  }

  /** `AutoCompleteTextBox` for a text and cursor position: the list box
      contents, or nothing shown when no entry is left. */
  function AutoComplete(keywords: seq<Keyword>, text: string, selectionStart: int, lastAddedTags: seq<string>): Popup
    requires 0 <= selectionStart <= |text|
  {
    var before := text[..selectionStart];
    ShowList(Listed(keywords, CompletionFor(keywords, before)), GetInsideTag(text, selectionStart),
      GetEndTagFromLastTagInText(before), lastAddedTags)
  }

  /** A list box filled from a filtered list shows exactly the entries that
      start with the typed word, each carrying that word and the tag at the
      cursor, and selects one of them; it is hidden exactly when none does. */
  lemma ShowListOfFiltered(keywords: seq<Keyword>, cs: seq<Candidate>, typedWord: string,
                           activeTagAtCursor: string, endTag: string, lastAddedTags: seq<string>)
    requires GetLastString(keywords, typedWord) == typedWord
    ensures var popup := ShowList(Completion(Filter(keywords, cs, typedWord), typedWord), activeTagAtCursor, endTag, lastAddedTags);
      (popup.Hidden? <==> forall x :: x in cs ==> !(typedWord == "" || StartsWithIgnoreCase(x.value, typedWord))) &&
      (popup.Shown? ==>
        popup.selectedIndex < |popup.items| &&
        forall i :: 0 <= i < |popup.items| ==>
          var it := popup.items[i];
          Candidate(it.value, it.hint, it.allowInTransformations) in cs &&
          (typedWord == "" || StartsWithIgnoreCase(it.value, typedWord)) &&
          it.typedWord == typedWord && it.activeTagAtCursor == activeTagAtCursor) &&
      (forall x :: x in cs && (typedWord == "" || StartsWithIgnoreCase(x.value, typedWord)) ==>
        popup.Shown? && ListsCandidate(popup.items, x))
  {
    var filtered := Filter(keywords, cs, typedWord);
    var popup := ShowList(Completion(filtered, typedWord), activeTagAtCursor, endTag, lastAddedTags);
    forall x | x in cs && (typedWord == "" || StartsWithIgnoreCase(x.value, typedWord))
      ensures popup.Shown? && ListsCandidate(popup.items, x)
    {
      assert Matches(keywords, x, typedWord);
      assert x in filtered;
      var i :| 0 <= i < |filtered| && filtered[i] == x;
      assert Candidate(popup.items[i].value, popup.items[i].hint, popup.items[i].allowInTransformations) == x;
    }
    if popup.Shown? {
      forall i | 0 <= i < |popup.items|
        ensures Candidate(popup.items[i].value, popup.items[i].hint, popup.items[i].allowInTransformations) == filtered[i]
      {
      }
      forall i | 0 <= i < |popup.items|
        ensures filtered[i] in cs && Matches(keywords, filtered[i], typedWord)
      {
        assert filtered[i] in filtered;
      }
    } else {
      assert filtered == [];
      forall x | x in cs
        ensures !Matches(keywords, x, typedWord)
      {
      }
    }
  }

  /** The list box shows exactly the entries of the working list that start
      with the typed word, each carrying that word and the tag at the cursor,
      and the selection is one of them; it is hidden exactly when none does. */
  lemma ShownItemsMatchTypedWord(keywords: seq<Keyword>, text: string, selectionStart: int, lastAddedTags: seq<string>)
    requires 0 <= selectionStart <= |text|
    ensures var c := CompletionFor(keywords, text[..selectionStart]);
      var popup := AutoComplete(keywords, text, selectionStart, lastAddedTags);
      (popup.Hidden? <==> forall x :: x in c.candidates ==> !(c.typedWord == "" || StartsWithIgnoreCase(x.value, c.typedWord))) &&
      (popup.Shown? ==>
        popup.selectedIndex < |popup.items| &&
        forall i :: 0 <= i < |popup.items| ==>
          var it := popup.items[i];
          Candidate(it.value, it.hint, it.allowInTransformations) in c.candidates &&
          (c.typedWord == "" || StartsWithIgnoreCase(it.value, c.typedWord)) &&
          it.typedWord == c.typedWord && it.activeTagAtCursor == GetInsideTag(text, selectionStart)) &&
      (forall x :: x in c.candidates && (c.typedWord == "" || StartsWithIgnoreCase(x.value, c.typedWord)) ==>
        popup.Shown? && ListsCandidate(popup.items, x))
  {
    var before := text[..selectionStart];
    var c := CompletionFor(keywords, before);
    FallbackNeverTaken(keywords, before);
    if c.typedWord != "" {
      GetLastStringIsIdempotent(keywords, before);
    }
    ShowListOfFiltered(keywords, c.candidates, c.typedWord, GetInsideTag(text, selectionStart),
      GetEndTagFromLastTagInText(before), lastAddedTags);
  }

  /** With nothing typed the filter keeps the whole list. */
  lemma {:induction false} FilterKeepsAllWhenNothingTyped(keywords: seq<Keyword>, cs: seq<Candidate>)
    ensures Filter(keywords, cs, "") == cs
  {
    if |cs| > 0 {
      FilterKeepsAllWhenNothingTyped(keywords, cs[1..]);
    }
  }

  /** Right after `\t(` the working list is every entry allowed in
      transforms, without its brace, with nothing typed. */
  lemma TransformListing(keywords: seq<Keyword>, before: string)
    requires EndsWith(before, "\\t(")
    ensures Listed(keywords, CompletionFor(keywords, before)) ==
      Completion(Offered(AllowedInTransformations(keywords), true), "")
  {
    FilterKeepsAllWhenNothingTyped(keywords, Offered(AllowedInTransformations(keywords), true));
  }

  /** A list box filled from a working list is shown exactly when the list is
      not empty; its items then follow the list one for one, each carrying
      the typed word, and the selection is one of them. */
  lemma ShowListCarriesCandidates(cs: seq<Candidate>, typedWord: string, activeTagAtCursor: string,
                                  endTag: string, lastAddedTags: seq<string>)
    ensures var popup := ShowList(Completion(cs, typedWord), activeTagAtCursor, endTag, lastAddedTags);
      (popup.Shown? <==> |cs| > 0) &&
      (popup.Shown? ==>
        |popup.items| == |cs| && popup.selectedIndex < |popup.items| &&
        forall i :: 0 <= i < |cs| ==>
          popup.items[i].value == cs[i].value && popup.items[i].typedWord == typedWord &&
          popup.items[i].allowInTransformations == cs[i].allowInTransformations)
  {
  }

  /** Right after `\t(` the list box is shown exactly when the table has an
      entry allowed in transforms. */
  lemma TransformListShownIff(keywords: seq<Keyword>, text: string, selectionStart: int, lastAddedTags: seq<string>)
    requires 0 <= selectionStart <= |text|
    requires EndsWith(text[..selectionStart], "\\t(")
    ensures AutoComplete(keywords, text, selectionStart, lastAddedTags).Shown? <==>
      exists kw :: kw in keywords && kw.allowInTransformations
  {
    var allowed := AllowedInTransformations(keywords);
    TransformListing(keywords, text[..selectionStart]);
    if exists kw :: kw in keywords && kw.allowInTransformations {
      var kw :| kw in keywords && kw.allowInTransformations;
      assert kw in allowed;
    }
  }

  /** The list box filled from entries allowed in transforms, without brace
      and with nothing typed, holds one backslash-led item per entry. */
  lemma TrimmedListItems(allowed: seq<Keyword>, activeTagAtCursor: string, endTag: string, lastAddedTags: seq<string>)
    requires forall kw :: kw in allowed ==> kw.allowInTransformations
    ensures var popup := ShowList(Completion(Offered(allowed, true), ""), activeTagAtCursor, endTag, lastAddedTags);
      popup.Shown? ==>
        |popup.items| == |allowed| &&
        forall i :: 0 <= i < |popup.items| ==>
          popup.items[i].allowInTransformations && popup.items[i].typedWord == "" &&
          StartsWithChar(popup.items[i].value, '\\')
  {
    var cs := Offered(allowed, true);
    ShowListCarriesCandidates(cs, "", activeTagAtCursor, endTag, lastAddedTags);
    forall i | 0 <= i < |allowed|
      ensures allowed[i].allowInTransformations && StartsWithChar(cs[i].value, '\\')
    {
      assert allowed[i] in allowed;
      TrimmedValueStartsWithBackslash(allowed[i]);
    }
  }

  /** Right after `\t(` the list box offers every entry allowed in transforms,
      without its brace, and nothing is counted as typed; it is shown when the
      table has such an entry. */
  lemma TransformOffersAnimatableTags(keywords: seq<Keyword>, text: string, selectionStart: int, lastAddedTags: seq<string>)
    requires 0 <= selectionStart <= |text|
    requires EndsWith(text[..selectionStart], "\\t(")
    ensures var popup := AutoComplete(keywords, text, selectionStart, lastAddedTags);
      (popup.Shown? <==> exists kw :: kw in keywords && kw.allowInTransformations) &&
      (popup.Shown? ==>
        |popup.items| == |AllowedInTransformations(keywords)| &&
        forall i :: 0 <= i < |popup.items| ==>
          popup.items[i].allowInTransformations && popup.items[i].typedWord == "" &&
          StartsWithChar(popup.items[i].value, '\\'))
  {
    var allowed := AllowedInTransformations(keywords);
    TransformListShownIff(keywords, text, selectionStart, lastAddedTags);
    TransformListing(keywords, text[..selectionStart]);
    var activeTagAtCursor := GetInsideTag(text, selectionStart);
    var endTag := GetEndTagFromLastTagInText(text[..selectionStart]);
    assert AutoComplete(keywords, text, selectionStart, lastAddedTags) ==
      ShowList(Completion(Offered(allowed, true), ""), activeTagAtCursor, endTag, lastAddedTags);
    TrimmedListItems(allowed, activeTagAtCursor, endTag, lastAddedTags);
  }

  /** The selection is the first listed closing tag when one is proposed, else
      the first listed repeat of the last tag when the last two added tags are
      equal, else the first item. */
  lemma SelectionPrefersClosingTag(items: seq<Item>, endTag: string, lastAddedTags: seq<string>)
    requires |items| > 0
    ensures var selected := SelectedIndex(items, endTag, lastAddedTags);
      var wanted := if endTag != "" then endTag
        else if LastTwoTagsEqual(lastAddedTags) then lastAddedTags[|lastAddedTags| - 1] else "";
      selected < |items| &&
      if (endTag != "" || LastTwoTagsEqual(lastAddedTags)) && exists i :: 0 <= i < |items| && items[i].value == wanted
      then items[selected].value == wanted && forall j :: 0 <= j < selected ==> items[j].value != wanted
      else selected == 0
  {
  }

  /** An entry without its brace starts with the backslash. */
  lemma TrimmedValueStartsWithBackslash(kw: Keyword)
    ensures StartsWithChar(TrimStart(kw.Value(), '{'), '\\')
  {
    var v := kw.Value();
    assert v[0] == '{' && v[1] == '\\';
    assert TrimStart(v[1..], '{') == v[1..];
  }

  /** The entries offered without brace all start with the backslash. */
  lemma TrimmedValuesStartWithBackslash(keywords: seq<Keyword>)
    ensures forall c :: c in Offered(keywords, true) ==> StartsWithChar(c.value, '\\')
  {
    var cs := Offered(keywords, true);
    forall c | c in cs
      ensures StartsWithChar(c.value, '\\')
    {
      var j :| 0 <= j < |cs| && cs[j] == c;
      TrimmedValueStartsWithBackslash(keywords[j]);
    }
  }

  /** With nothing typed, outside a transform, the list box shows every
      entry of the table and preselects the proposed closing tag whenever the
      table has it. */
  lemma ClosingTagPreselectedWhenListed(keywords: seq<Keyword>, text: string, selectionStart: int, lastAddedTags: seq<string>)
    requires 0 <= selectionStart <= |text|
    requires !EndsWith(text[..selectionStart], "\\t(")
    requires GetLastString(keywords, text[..selectionStart]) == ""
    requires exists kw :: kw in keywords && kw.Value() == GetEndTagFromLastTagInText(text[..selectionStart])
    ensures var popup := AutoComplete(keywords, text, selectionStart, lastAddedTags);
      popup.Shown? && |popup.items| == |keywords| &&
      popup.items[popup.selectedIndex].value == GetEndTagFromLastTagInText(text[..selectionStart])
  {
    var before := text[..selectionStart];
    var endTag := GetEndTagFromLastTagInText(before);
    var cs := Offered(keywords, false);
    FilterKeepsAllWhenNothingTyped(keywords, cs);
    assert Listed(keywords, CompletionFor(keywords, before)) == Completion(cs, "");
    var kw :| kw in keywords && kw.Value() == endTag;
    EveryKeywordIsATagBlock(kw);
    var j :| 0 <= j < |keywords| && keywords[j] == kw;
    var items := Populated(cs, "", GetInsideTag(text, selectionStart));
    assert items[j].value == endTag;
  }

  /** Once the typed word starts with a backslash the listed values lose
      their brace, while a proposed closing tag keeps it, so the closing tag
      is never preselected: the first item is. */
  lemma TrimmedListNeverPreselectsClosingTag(keywords: seq<Keyword>, typedWord: string, activeTagAtCursor: string,
                                             before: string, lastAddedTags: seq<string>)
    requires StartsWithChar(typedWord, '\\')
    requires GetEndTagFromLastTagInText(before) != ""
    ensures var items := Populated(Filter(keywords, Offered(keywords, true), typedWord), typedWord, activeTagAtCursor);
      SelectedIndex(items, GetEndTagFromLastTagInText(before), lastAddedTags) == 0
  {
    var filtered := Filter(keywords, Offered(keywords, true), typedWord);
    var items := Populated(filtered, typedWord, activeTagAtCursor);
    var endTag := GetEndTagFromLastTagInText(before);
    TrimmedValuesStartWithBackslash(keywords);
    forall i | 0 <= i < |items|
      ensures items[i].value != endTag
    {
      assert filtered[i] in filtered;
    }
  }

  // ----- The completion as written -----

  /** `AutoCompleteTextBox` with the source's `GetLastString`: the call on the
      text before the cursor throws for a leading separator, and after any
      other separator it reads no word. The second call, on the typed word
      itself, sees no separator, where both versions agree
      (`InnerCallAgrees`), so the filter is shared with the corrected
      program. */
  function AutoCompleteAsWritten(keywords: seq<Keyword>, text: string, selectionStart: int, lastAddedTags: seq<string>): Result<Popup>
    requires 0 <= selectionStart <= |text|
  {
    var before := text[..selectionStart];
    match GetLastStringAsWritten(keywords, before)
    case Failure(e) => Failure(e)
    case Ok(typed) =>
      var c := if EndsWith(before, "\\t(") then Completion(Offered(AllowedInTransformations(keywords), true), "")
               else Completion(Offered(keywords, StartsWithChar(typed, '\\')), typed);
      Ok(ShowList(Listed(keywords, c), GetInsideTag(text, selectionStart), GetEndTagFromLastTagInText(before), lastAddedTags))
  }

  /** The word the source's first call returns has no separator, so the
      source's second call on it agrees with the corrected one. */
  lemma InnerCallAgrees(keywords: seq<Keyword>, before: string)
    requires GetLastStringAsWritten(keywords, before).Ok?
    ensures var w := GetLastStringAsWritten(keywords, before).value;
      GetLastStringAsWritten(keywords, w) == Ok(GetLastString(keywords, w))
  {
    AsWrittenDiffersOnlyAfterSeparator(keywords, before);
    GetLastStringIsTypedWord(keywords, before);
    var w := GetLastStringAsWritten(keywords, before).value;
    assert forall k :: 0 <= k < |w| ==> w[k] !in Separators;
    assert LastIndexOfAny(w, Separators) == -1;
    AsWrittenElsewhere(keywords, w, LastIndexOfAny(w, {'\\'}), -1);
  }

  /** The source's completion throws exactly when its first `GetLastString`
      does, and shows the corrected list box whenever that call reads the
      same word as the corrected one. */
  lemma AutoCompleteAsWrittenAgrees(keywords: seq<Keyword>, text: string, selectionStart: int, lastAddedTags: seq<string>)
    requires 0 <= selectionStart <= |text|
    ensures var before := text[..selectionStart];
      && (AutoCompleteAsWritten(keywords, text, selectionStart, lastAddedTags).Failure? <==>
            GetLastStringAsWritten(keywords, before).Failure?)
      && (GetLastStringAsWritten(keywords, before) == Ok(GetLastString(keywords, before)) ==>
            AutoCompleteAsWritten(keywords, text, selectionStart, lastAddedTags) ==
              Ok(AutoComplete(keywords, text, selectionStart, lastAddedTags)))
  {
  }

  /** A leading separator makes the source's completion throw. */
  lemma LeadingSeparatorAbortsCompletion(keywords: seq<Keyword>, lastAddedTags: seq<string>)
    requires |keywords| > 0
    ensures AutoCompleteAsWritten(keywords, " {", 2, lastAddedTags) == Failure(ArgumentOutOfRange)
  {
    LeadingSeparatorThrows(keywords);
    assert " {"[..2] == " {";
  }

  /** After "Hello {" the source lists the whole table with nothing typed. */
  lemma BraceAfterWordListsWholeTable(keywords: seq<Keyword>, lastAddedTags: seq<string>)
    requires |keywords| > 0
    ensures var r := AutoCompleteAsWritten(keywords, "Hello {", 7, lastAddedTags);
      && r.Ok? && r.value.Shown? && |r.value.items| == |keywords|
      && (forall i :: 0 <= i < |r.value.items| ==> r.value.items[i].typedWord == "")
  {
    var text := "Hello {";
    var cs := Offered(keywords, false);
    var tag := GetInsideTag(text, 7);
    var endTag := GetEndTagFromLastTagInText(text);
    assert text[..7] == text;
    assert GetLastStringAsWritten(keywords, text) == Ok("") by {
      BraceAfterWordIsLost(keywords);
    }
    assert Listed(keywords, Completion(cs, "")) == Completion(cs, "") by {
      FilterKeepsAllWhenNothingTyped(keywords, cs);
    }
    assert AutoCompleteAsWritten(keywords, text, 7, lastAddedTags) == Ok(ShowList(Completion(cs, ""), tag, endTag, lastAddedTags));
    ShowListCarriesCandidates(cs, "", tag, endTag, lastAddedTags);
  }

  /** After "Hello {" the corrected completion shows the list with the
      brace as the typed word of every item. */
  lemma BraceAfterWordIsTyped(keywords: seq<Keyword>, lastAddedTags: seq<string>)
    requires |keywords| > 0
    ensures var popup := AutoComplete(keywords, "Hello {", 7, lastAddedTags);
      popup.Shown? && forall i :: 0 <= i < |popup.items| ==> popup.items[i].typedWord == "{"
  {
    var text := "Hello {";
    var c := CompletionFor(keywords, text);
    assert text[..7] == text;
    assert !EndsWith(text, "\\t(");
    assert c == Completion(Offered(keywords, false), "{") by {
      BraceAfterWordIsLost(keywords);
    }
    assert StartsWithIgnoreCase(c.candidates[0].value, "{") by {
      assert c.candidates[0].value == keywords[0].Value();
    }
    ShownItemsMatchTypedWord(keywords, text, 7, lastAddedTags);
  }

  /** The completion state: the tags added so far, in order. */
  class Intellisense {
    /** The tag table the list is filled from. */
    const keywords: seq<Keyword>
    var lastAddedTags: seq<string>

    constructor ()
      ensures keywords == Keywords && lastAddedTags == []
    {
      keywords := Keywords;
      lastAddedTags := [];
    }

    /** `AddUsedTag`: records a tag the user inserted. */
    method AddUsedTag(tag: string)
      modifies this
      ensures lastAddedTags == old(lastAddedTags) + [tag]
      ensures IsLastTwoTagsEqual() <==> |old(lastAddedTags)| >= 1 && old(lastAddedTags)[|old(lastAddedTags)| - 1] == tag
    {
      AddedTagRepeatsIff(lastAddedTags, tag);
      lastAddedTags := lastAddedTags + [tag];
    }

    /** `IsLastTwoTagsEqual`: the last two added tags are the same. */
    predicate IsLastTwoTagsEqual()
      reads this
    {
      LastTwoTagsEqual(lastAddedTags)
    }

    /** `AutoCompleteTextBox`: fills the list box for the text and cursor
        position from the tag table and selects an item; nothing is shown when
        no item is left. */
    method AutoCompleteTextBox(text: string, selectionStart: int) returns (popup: Popup)
      requires 0 <= selectionStart <= |text|
      ensures popup == AutoComplete(keywords, text, selectionStart, lastAddedTags)
    {
      var textBeforeCursor := text[..selectionStart];
      var activeTagAtCursor := GetInsideTag(text, selectionStart);
      var listed := Listed(keywords, CompletionFor(keywords, textBeforeCursor));
      var endTag := GetEndTagFromLastTagInText(textBeforeCursor);
      popup := FillListBox(listed, activeTagAtCursor, endTag);
    }

    /** The second half of `AutoCompleteTextBox`: adds one item per listed
        entry, carrying the typed word and the tag at the cursor, then selects
        the proposed closing tag, else the repeated last tag, else the first
        item. */
    method FillListBox(listed: Completion, activeTagAtCursor: string, endTag: string) returns (popup: Popup)
      ensures popup == ShowList(listed, activeTagAtCursor, endTag, lastAddedTags)
    {
      var items: seq<Item> := [];
      for i := 0 to |listed.candidates|
        invariant items == Populated(listed.candidates[..i], listed.typedWord, activeTagAtCursor)
      {
        var item := listed.candidates[i];
        items := items + [Item(item.value, item.hint, item.allowInTransformations, listed.typedWord, activeTagAtCursor)];
      }
      assert listed.candidates[..|listed.candidates|] == listed.candidates;
      if |items| == 0 {
        return Hidden;
      }
      var selectedIndex := 0;
      if endTag != "" {
        var i := IndexOfValue(items, endTag);
        if i >= 0 {
          selectedIndex := i;
        }
      } else if IsLastTwoTagsEqual() {
        var i := IndexOfValue(items, lastAddedTags[|lastAddedTags| - 1]);
        if i >= 0 {
          selectedIndex := i;
        }
      }
      popup := Shown(items, selectedIndex);
    }
  }
}
