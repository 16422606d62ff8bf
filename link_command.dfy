/**
 * The `/link CODE` bot command (app/api/telegram/link/route.ts,
 * `extractInviteCode`): the trimmed text must be `/link`, in any letter case,
 * optionally followed by `@botname`, then whitespace and one code of letters,
 * digits and hyphens, which comes back upper-cased. The regular expression is
 * modelled by a scanner and proved equal to the decomposition it describes.
 */
module LinkCommand {
  import opened Wrappers
  import opened Strings

  /** `\w` (ASCII, as the expression has no `u` flag). */
  predicate IsWordChar(c: char) {
    'a' <= c <= 'z' || 'A' <= c <= 'Z' || '0' <= c <= '9' || c == '_'
  }

  /** `[A-Za-z0-9-]`. */
  predicate IsCodeChar(c: char) {
    'a' <= c <= 'z' || 'A' <= c <= 'Z' || '0' <= c <= '9' || c == '-'
  }

  /** What is left after `/link` and the optional `@botname`, if those are well formed. */
  function AfterName(rest: string): (r: Option<string>)
    ensures r.Some? ==> |r.value| <= |rest| && r.value == rest[|rest| - |r.value|..]
  {
    if rest != [] && rest[0] == '@' then
      var n := Span(rest[1..], IsWordChar);
      if n == 0 then None else Some(rest[1 + n..])
    else Some(rest)
  }

  /** The match on the trimmed text. */
  function ParseTrimmed(trimmed: string): (r: Option<string>)
    ensures r.Some? ==> 0 < |r.value| <= |trimmed| - 6
  {
    if |trimmed| < 5 || trimmed[0] != '/' || ToLower(trimmed[1..5]) != "link" then None
    else
      match AfterName(trimmed[5..])
      case None => None
      case Some(tail) => CodeAfterGap(tail)
  }

  /** `\s+([A-Za-z0-9-]+)$` on what follows the bot name: the code, upper-cased. */
  function CodeAfterGap(tail: string): (r: Option<string>)
    ensures r.Some? ==> 0 < |r.value| < |tail| && r.value == ToUpper(tail[|tail| - |r.value|..])
  {
    var w := Span(tail, IsWhitespace);
    var code := tail[w..];
    if w == 0 || code == [] || Span(code, IsCodeChar) != |code| then None
    else Some(ToUpper(code))
  }

  /**
   * `extractInviteCode`: a code found is never empty, and the message holds at
   * least the six characters of `/link` and a space besides it.
   */
  function ExtractInviteCode(text: string): (r: Option<string>)
    ensures r.Some? ==> 0 < |r.value| <= |text| - 6
  {
    ParseTrimmed(Trim(text))
  }

  /** `/link` in any letter case. */
  predicate IsCommandWord(head: string) {
    |head| == 5 && head[0] == '/' && ToLower(head[1..]) == "link"
  }

  /** Nothing, or `@` and at least one word character. */
  predicate IsBotSuffix(name: string) {
    name == [] || (|name| >= 2 && name[0] == '@' && forall i :: 1 <= i < |name| ==> IsWordChar(name[i]))
  }

  predicate IsCode(code: string) {
    code != [] && forall i :: 0 <= i < |code| ==> IsCodeChar(code[i])
  }

  /** `t` matches `^\/link(?:@\w+)?\s+([A-Za-z0-9-]+)$` (case-insensitively) with `code` as the group. */
  ghost predicate MatchesLink(t: string, code: string) {
    exists head, name, gap ::
      t == head + name + gap + code && IsCommandWord(head) && IsBotSuffix(name)
      && gap != [] && AllWhitespace(gap) && IsCode(code)
  }

  /** Whitespace, word characters and code characters do not overlap where it matters. */
  lemma CharClasses(c: char)
    ensures IsCodeChar(c) ==> !IsWhitespace(c)
    ensures IsWordChar(c) ==> !IsWhitespace(c) && c != '@'
    ensures IsWhitespace(c) ==> c != '@' && !IsWordChar(c) && !IsCodeChar(c)
  {
  }

  /** A well-formed bot name is skipped up to the whitespace after it. */
  lemma AfterNameOf(name: string, tail: string)
    requires IsBotSuffix(name) && tail != [] && IsWhitespace(tail[0])
    ensures AfterName(name + tail) == Some(tail)
  {
    var rest := name + tail;
    CharClasses(tail[0]);
    if name == [] {
      assert rest == tail;
    } else {
      assert rest[0] == '@';
      assert rest[1..] == name[1..] + tail;
      SpanOfPrefix(name[1..], tail, IsWordChar);
      assert rest[1 + |name[1..]|..] == tail;
    }
  }

  /** Whitespace and then a code give the code. */
  lemma CodeAfterGapOf(gap: string, code: string)
    requires gap != [] && AllWhitespace(gap) && IsCode(code)
    ensures CodeAfterGap(gap + code) == Some(ToUpper(code))
  {
    CharClasses(code[0]);
    SpanOfPrefix(gap, code, IsWhitespace);
    assert (gap + code)[|gap|..] == code;
    SpanOfPrefix(code, [], IsCodeChar);
    assert code + [] == code;
  }

  /** Every decomposition the expression allows is found, with its code upper-cased. */
  lemma ParseComplete(t: string, code: string)
    requires MatchesLink(t, code)
    ensures ParseTrimmed(t) == Some(ToUpper(code))
  {
    var head, name, gap :| t == head + name + gap + code && IsCommandWord(head) && IsBotSuffix(name)
                           && gap != [] && AllWhitespace(gap) && IsCode(code);
    assert t == head + (name + (gap + code));
    assert t[..5] == head;
    assert t[1..5] == head[1..];
    assert t[5..] == name + (gap + code);
    assert (gap + code)[0] == gap[0];
    AfterNameOf(name, gap + code);
    CodeAfterGapOf(gap, code);
  }

  lemma ExtractComplete(text: string, code: string)
    requires MatchesLink(Trim(text), code)
    ensures ExtractInviteCode(text) == Some(ToUpper(code))
  {
    ParseComplete(Trim(text), code);
  }

  /** What `AfterName` skipped is a well-formed bot name. */
  lemma AfterNameParts(rest: string) returns (name: string)
    requires AfterName(rest).Some?
    ensures IsBotSuffix(name) && rest == name + AfterName(rest).value
  {
    if rest != [] && rest[0] == '@' {
      var n := Span(rest[1..], IsWordChar);
      name := rest[..1 + n];
      assert rest == name + rest[1 + n..];
      forall i | 1 <= i < |name| ensures IsWordChar(name[i]) {
        assert name[i] == rest[1..][i - 1];
      }
    } else {
      name := [];
      assert rest == name + rest;
    }
  }

  /** What `CodeAfterGap` skipped is whitespace, and what it returned is a code. */
  lemma CodeAfterGapParts(tail: string) returns (gap: string, code: string)
    requires CodeAfterGap(tail).Some?
    ensures tail == gap + code && gap != [] && AllWhitespace(gap) && IsCode(code)
    ensures CodeAfterGap(tail) == Some(ToUpper(code))
  {
    var w := Span(tail, IsWhitespace);
    gap := tail[..w];
    code := tail[w..];
    assert tail == gap + code;
  }

  /** Every code found comes from such a decomposition. */
  lemma ParseSound(t: string)
    requires ParseTrimmed(t).Some?
    ensures exists code :: MatchesLink(t, code) && ParseTrimmed(t) == Some(ToUpper(code))
  {
    var tail := ParseTrimmedParts(t);
    var name := AfterNameParts(t[5..]);
    var gap, code := CodeAfterGapParts(tail);
    MatchesLinkOf(t, name, tail, gap, code);
  }

  /** A successful match starts with the command word, and the rest is read by `AfterName` and `CodeAfterGap`. */
  lemma ParseTrimmedParts(t: string) returns (tail: string)
    requires ParseTrimmed(t).Some?
    ensures |t| >= 5 && IsCommandWord(t[..5]) && AfterName(t[5..]) == Some(tail)
    ensures ParseTrimmed(t) == CodeAfterGap(tail)
  {
    assert t[..5][1..] == t[1..5];
    tail := AfterName(t[5..]).value;
  }

  lemma MatchesLinkOf(t: string, name: string, tail: string, gap: string, code: string)
    requires |t| >= 5 && IsCommandWord(t[..5]) && t[5..] == name + tail && tail == gap + code
    requires IsBotSuffix(name) && gap != [] && AllWhitespace(gap) && IsCode(code)
    ensures MatchesLink(t, code)
  {
    assert t == t[..5] + name + gap + code;
  }

  lemma ExtractSound(text: string)
    requires ExtractInviteCode(text).Some?
    ensures exists code :: MatchesLink(Trim(text), code) && ExtractInviteCode(text) == Some(ToUpper(code))
  {
    ParseSound(Trim(text));
  }

  /** `null` exactly when no decomposition exists: a missing code, extra tokens or a stray character. */
  lemma ExtractNoneIff(text: string)
    ensures ExtractInviteCode(text).None? <==> forall code :: !MatchesLink(Trim(text), code)
  {
    if ExtractInviteCode(text).Some? {
      ExtractSound(text);
    } else {
      forall code ensures !MatchesLink(Trim(text), code) {
        if MatchesLink(Trim(text), code) {
          ExtractComplete(text, code);
        }
      }
    }
  }

  /** A code found is upper-case letters, digits and hyphens only. */
  lemma ExtractedCodeChars(text: string)
    requires ExtractInviteCode(text).Some?
    ensures var r := ExtractInviteCode(text).value;
            r != [] && forall i :: 0 <= i < |r| ==> 'A' <= r[i] <= 'Z' || '0' <= r[i] <= '9' || r[i] == '-'
  {
    var t := Trim(text);
    var tail := AfterName(t[5..]).value;
    var gap, code := CodeAfterGapParts(tail);
    UpperCode(code);
  }

  lemma UpperCode(code: string)
    requires IsCode(code)
    ensures var r := ToUpper(code);
            r != [] && forall i :: 0 <= i < |r| ==> 'A' <= r[i] <= 'Z' || '0' <= r[i] <= '9' || r[i] == '-'
  {
  }

  /** Whitespace around the command does not matter. */
  lemma ExtractIgnoresPadding(text: string, pre: string, post: string)
    requires AllWhitespace(pre) && AllWhitespace(post)
    ensures ExtractInviteCode(pre + text + post) == ExtractInviteCode(text)
  {
    TrimPadding(pre, text, post);
  }
}
