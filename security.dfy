/**
 * Input sanitising, masking, file checks and the client-side rate limiter
 * of the security helpers (lib/security.ts).
 *
 * Each global regular-expression replacement of the source is written as an
 * explicit left-to-right scan: at each position the pattern is tried; on a
 * match the matched text is dropped and the scan resumes after it, otherwise
 * the character is kept and the scan moves on by one.
 */
module Security {
  import opened Wrappers
  import opened Text

  // =====================================================================
  // escapeHtml
  // =====================================================================

  /** The six characters that escapeHtml replaces. */
  predicate IsHtmlSpecial(c: char) {
    c == '&' || c == '<' || c == '>' || c == '"' || c == '\'' || c == '/'
  }

  /** The replacement table of escapeHtml. */
  function EscapeChar(c: char): (r: string)
    ensures !IsHtmlSpecial(c) ==> r == [c]
    ensures IsHtmlSpecial(c) ==> |r| >= 4 && r[0] == '&'
  {
    match c
    case '&' => "&amp;"
    case '<' => "&lt;"
    case '>' => "&gt;"
    case '"' => "&quot;"
    case '\'' => "&#x27;"
    case '/' => "&#x2F;"
    case _ => [c]
  }

  /** `r` has one of the six entities of escapeHtml starting at index `i`. */
  predicate EntityAt(r: string, i: nat) {
    OccursAt(r, i, "&amp;") || OccursAt(r, i, "&lt;") || OccursAt(r, i, "&gt;") ||
    OccursAt(r, i, "&quot;") || OccursAt(r, i, "&#x27;") || OccursAt(r, i, "&#x2F;")
  }

  /** A raw character that escapeHtml never lets through. */
  predicate IsRawMarkup(c: char) {
    c == '<' || c == '>' || c == '"' || c == '\'' || c == '/'
  }

  /** escapeHtml: one pass that replaces every special character by its entity. The output
      holds none of `< > " ' /` and is at least as long as the input. */
  function EscapeHtml(s: string): (r: string)
    ensures |r| >= |s|
    ensures forall k :: 0 <= k < |r| ==> !IsRawMarkup(r[k])
    decreases |s|
  {
    if s == [] then [] else EscapeChar(s[0]) + EscapeHtml(s[1..])
  }

  /** Every `&` in an escaped string begins one of the six entities. */
  lemma {:induction false} EscapedAmpersandsStartEntities(s: string, i: nat)
    requires i < |EscapeHtml(s)| && EscapeHtml(s)[i] == '&'
    ensures EntityAt(EscapeHtml(s), i)
    decreases |s|
  {
    assert s != [];
    var head := EscapeChar(s[0]);
    var tail := EscapeHtml(s[1..]);
    assert EscapeHtml(s) == head + tail;
    if i >= |head| {
      assert (head + tail)[i] == tail[i - |head|];
      EscapedAmpersandsStartEntities(s[1..], i - |head|);
    }
    AmpersandInPieces(s[0], head, tail, i);
  }

  /** An `&` of an escaped character followed by escaped text starts an entity, given
      that those of the text do. */
  lemma AmpersandInPieces(c: char, head: string, tail: string, i: nat)
    requires head == EscapeChar(c)
    requires i < |head + tail| && (head + tail)[i] == '&'
    requires i >= |head| ==> EntityAt(tail, i - |head|)
    ensures EntityAt(head + tail, i)
  {
    if i < |head| {
      assert (head + tail)[i] == head[i];
      AmpersandOnlyFirst(c, i);
      EntityAtStart(c, tail);
    } else {
      EntityAtShift(head, tail, i - |head|);
    }
  }

  lemma AmpersandOnlyFirst(c: char, i: nat)
    requires i < |EscapeChar(c)| && EscapeChar(c)[i] == '&'
    ensures i == 0 && IsHtmlSpecial(c)
  {
  }

  lemma EntityAtStart(c: char, t: string)
    requires IsHtmlSpecial(c)
    ensures EntityAt(EscapeChar(c) + t, 0)
  {
    var e := EscapeChar(c);
    assert (e + t)[0..|e|] == e;
  }

  lemma EntityAtShift(a: string, b: string, j: nat)
    requires EntityAt(b, j)
    ensures EntityAt(a + b, |a| + j)
  {
    forall p: string | OccursAt(b, j, p) ensures OccursAt(a + b, |a| + j, p) {
      assert (a + b)[|a| + j..|a| + j + |p|] == b[j..j + |p|];
    }
  }

  /** The inverse of escapeHtml: each entity is turned back into its character. */
  function DecodeEntities(r: string): string
    decreases |r|
  {
    if r == [] then []
    else if OccursAt(r, 0, "&amp;") then "&" + DecodeEntities(r[5..])
    else if OccursAt(r, 0, "&lt;") then "<" + DecodeEntities(r[4..])
    else if OccursAt(r, 0, "&gt;") then ">" + DecodeEntities(r[4..])
    else if OccursAt(r, 0, "&quot;") then "\"" + DecodeEntities(r[6..])
    else if OccursAt(r, 0, "&#x27;") then "'" + DecodeEntities(r[6..])
    else if OccursAt(r, 0, "&#x2F;") then "/" + DecodeEntities(r[6..])
    else [r[0]] + DecodeEntities(r[1..])
  }

  lemma DecodeEscapedChar(c: char, t: string)
    ensures DecodeEntities(EscapeChar(c) + t) == [c] + DecodeEntities(t)
  {
    var e := EscapeChar(c);
    var r := e + t;
    assert r[..|e|] == e;
    assert r[|e|..] == t;
    if c == '&' {
    } else if c == '<' {
      Differs(r, "&amp;", 1);
    } else if c == '>' {
      Differs(r, "&amp;", 1); Differs(r, "&lt;", 1);
    } else if c == '"' {
      Differs(r, "&amp;", 1); Differs(r, "&lt;", 1); Differs(r, "&gt;", 1);
    } else if c == '\'' {
      Differs(r, "&amp;", 1); Differs(r, "&lt;", 1); Differs(r, "&gt;", 1);
      Differs(r, "&quot;", 1);
    } else if c == '/' {
      Differs(r, "&amp;", 1); Differs(r, "&lt;", 1); Differs(r, "&gt;", 1);
      Differs(r, "&quot;", 1); Differs(r, "&#x27;", 4);
    } else {
      assert r[0] == c;
      Differs(r, "&amp;", 0); Differs(r, "&lt;", 0); Differs(r, "&gt;", 0);
      Differs(r, "&quot;", 0); Differs(r, "&#x27;", 0); Differs(r, "&#x2F;", 0);
      assert r[1..] == t;
    }
  }

  lemma Differs(r: string, p: string, k: nat)
    requires k < |p| && (k >= |r| || r[k] != p[k])
    ensures !OccursAt(r, 0, p)
  {
    if |p| <= |r| { assert r[0..|p|][k] == r[k]; }
  }

  /** escapeHtml loses nothing: decoding its output gives the input back. */
  lemma {:induction false} EscapeHtmlRoundTrip(s: string)
    ensures DecodeEntities(EscapeHtml(s)) == s
    decreases |s|
  {
    if s != [] {
      DecodeEscapedChar(s[0], EscapeHtml(s[1..]));
      EscapeHtmlRoundTrip(s[1..]);
      assert [s[0]] + s[1..] == s;
    }
  }

  // =====================================================================
  // Case-insensitive pattern matching (the /i regular expressions)
  // =====================================================================

  /** The lower-case ASCII pattern `p` matches `s` at index `i`, ignoring ASCII case. */
  predicate MatchesCIAt(s: string, i: nat, p: string) {
    i + |p| <= |s| && forall k :: 0 <= k < |p| ==> LowerAscii(s[i + k]) == p[k]
  }

  /** `/p/i.test(s)` for a literal pattern. */
  predicate ContainsCI(s: string, p: string) {
    exists i: nat | i + |p| <= |s| :: MatchesCIAt(s, i, p)
  }

  const Protocol: string := "javascript:"

  lemma MatchInTail(s: string, i: nat, p: string)
    requires |s| > 0 && MatchesCIAt(s[1..], i, p)
    ensures MatchesCIAt(s, i + 1, p)
  {
    forall k | 0 <= k < |p| ensures LowerAscii(s[i + 1 + k]) == p[k] {
      assert s[1..][i + k] == s[i + 1 + k];
    }
  }

  lemma ContainsInTail(s: string, p: string)
    requires |s| > 0
    ensures ContainsCI(s[1..], p) ==> ContainsCI(s, p)
  {
    if ContainsCI(s[1..], p) {
      var i: nat :| i + |p| <= |s[1..]| && MatchesCIAt(s[1..], i, p);
      MatchInTail(s, i, p);
    }
  }

  lemma ContainsAfterStart(s: string, p: string)
    requires |s| > 0 && !MatchesCIAt(s, 0, p)
    ensures ContainsCI(s, p) ==> ContainsCI(s[1..], p)
  {
    if ContainsCI(s, p) {
      var i: nat :| i + |p| <= |s| && MatchesCIAt(s, i, p);
      assert i >= 1;
      forall k | 0 <= k < |p| ensures LowerAscii(s[1..][i - 1 + k]) == p[k] {
        assert s[1..][i - 1 + k] == s[i + k];
      }
      assert MatchesCIAt(s[1..], i - 1, p);
    }
  }

  /** A match inside a slice is a match in the whole string. */
  lemma ContainsInSlice(s: string, a: nat, b: nat, p: string)
    requires a <= b <= |s|
    ensures ContainsCI(s[a..b], p) ==> ContainsCI(s, p)
  {
    if ContainsCI(s[a..b], p) {
      var i: nat :| i + |p| <= |s[a..b]| && MatchesCIAt(s[a..b], i, p);
      forall k | 0 <= k < |p| ensures LowerAscii(s[a + i + k]) == p[k] {
        assert s[a..b][i + k] == s[a + i + k];
      }
      assert MatchesCIAt(s, a + i, p);
    }
  }

  /** A pattern that starts with a character which does not occur in `s` does not match. */
  lemma NoMatchWithoutFirstChar(s: string, p: string)
    requires |p| > 0 && !IsAsciiLetter(p[0]) && p[0] !in s
    ensures !ContainsCI(s, p)
  {
    forall i: nat | i + |p| <= |s| ensures !MatchesCIAt(s, i, p) {
      assert s[i + 0] in s;
      assert LowerAscii(s[i + 0]) != p[0];
    }
  }

  // ---------------------------------------------------------------------
  // The event-handler pattern /on\w+=/i
  // ---------------------------------------------------------------------

  /** The end of the run of word characters that starts at `k`. */
  function WordRunEnd(s: string, k: nat): (e: nat)
    requires k <= |s|
    ensures k <= e <= |s|
    ensures forall j :: k <= j < e ==> IsWordChar(s[j])
    ensures e == |s| || !IsWordChar(s[e])
    decreases |s| - k
  {
    if k < |s| && IsWordChar(s[k]) then WordRunEnd(s, k + 1) else k
  }

  /** The length of the match of `/on\w+=/i` at the start of `s`, if there is one. The
      greedy `\w+` cannot give back characters to reach the `=`, which is not a word
      character, so the match exists exactly when the word run after `on` ends in `=`. */
  function HandlerMatch(s: string): (r: Option<nat>)
    ensures r.Some? ==> 4 <= r.value <= |s| && s[r.value - 1] == '='
  {
    if |s| >= 2 && LowerAscii(s[0]) == 'o' && LowerAscii(s[1]) == 'n' then
      var e := WordRunEnd(s, 2);
      if e > 2 && e < |s| && s[e] == '=' then Some(e + 1) else None
    else None
  }

  predicate HandlerAt(s: string, i: nat) {
    i <= |s| && HandlerMatch(s[i..]).Some?
  }

  /** `/on\w+=/i.test(s)` */
  predicate HasHandler(s: string) {
    exists i: nat | i <= |s| :: HandlerAt(s, i)
  }

  lemma {:induction false} WordRunEndExtend(t: string, u: string, k: nat)
    requires k <= |t| && WordRunEnd(t, k) < |t|
    ensures WordRunEnd(t + u, k) == WordRunEnd(t, k)
    decreases |t| - k
  {
    assert (t + u)[k] == t[k];
    if IsWordChar(t[k]) {
      WordRunEndExtend(t, u, k + 1);
    }
  }

  /** A handler match does not depend on what follows it. */
  lemma HandlerMatchExtend(t: string, u: string)
    requires HandlerMatch(t).Some?
    ensures HandlerMatch(t + u) == HandlerMatch(t)
  {
    WordRunEndExtend(t, u, 2);
    assert (t + u)[0] == t[0] && (t + u)[1] == t[1];
    var e := WordRunEnd(t, 2);
    assert (t + u)[e] == t[e];
  }

  lemma HandlerInSlice(s: string, a: nat, b: nat)
    requires a <= b <= |s|
    ensures HasHandler(s[a..b]) ==> HasHandler(s)
  {
    if HasHandler(s[a..b]) {
      var i: nat :| i <= |s[a..b]| && HandlerAt(s[a..b], i);
      var t := s[a..b][i..];
      assert t == s[a + i..b];
      assert s[a + i..] == t + s[b..];
      HandlerMatchExtend(t, s[b..]);
      assert HandlerAt(s, a + i);
    }
  }

  lemma HandlerInTail(s: string)
    requires |s| > 0
    ensures HasHandler(s[1..]) ==> HasHandler(s)
  {
    if HasHandler(s[1..]) {
      var i: nat :| i <= |s[1..]| && HandlerAt(s[1..], i);
      assert s[1..][i..] == s[i + 1..];
      assert HandlerAt(s, i + 1);
    }
  }

  lemma HandlerAfterStart(s: string)
    requires |s| > 0 && HandlerMatch(s).None?
    ensures HasHandler(s) ==> HasHandler(s[1..])
  {
    if HasHandler(s) {
      var i: nat :| i <= |s| && HandlerAt(s, i);
      assert s[0..] == s;
      assert i >= 1;
      assert s[1..][i - 1..] == s[i..];
      assert HandlerAt(s[1..], i - 1);
    }
  }

  /** A string without `=` has no event-handler attribute. */
  lemma NoHandlerWithoutEquals(s: string)
    requires '=' !in s
    ensures !HasHandler(s)
  {
    forall i: nat | i <= |s| ensures HandlerMatch(s[i..]).None? {
    }
  }

  // =====================================================================
  // sanitizeString
  // =====================================================================

  /** `.replace(/[<>]/g, '')` */
  function RemoveAngleBrackets(s: string): (r: string)
    ensures DrawnFrom(r, s)
    ensures '<' !in r && '>' !in r
    decreases |s|
  {
    if s == [] then []
    else if s[0] == '<' || s[0] == '>' then RemoveAngleBrackets(s[1..])
    else [s[0]] + RemoveAngleBrackets(s[1..])
  }

  /** `.replace(/javascript:/gi, '')`: a single left-to-right pass. */
  function RemoveProtocol(s: string): (r: string)
    ensures DrawnFrom(r, s)
    decreases |s|
  {
    if s == [] then []
    else if MatchesCIAt(s, 0, Protocol) then RemoveProtocol(s[|Protocol|..])
    else [s[0]] + RemoveProtocol(s[1..])
  }

  /** `.replace(/on\w+=/gi, '')`: a single left-to-right pass. */
  function RemoveHandlers(s: string): (r: string)
    ensures DrawnFrom(r, s)
    decreases |s|
  {
    if s == [] then []
    else match HandlerMatch(s)
      case Some(n) => RemoveHandlers(s[n..])
      case None => [s[0]] + RemoveHandlers(s[1..])
  }

  /** sanitizeString: angle brackets, `javascript:` and `on…=` are deleted, then the
      result is trimmed. Deletions never add characters, so no angle bracket survives. */
  function SanitizeString(input: string): (r: string)
    ensures '<' !in r && '>' !in r
    ensures r == [] || (!IsJsWhitespace(r[0]) && !IsJsWhitespace(r[|r| - 1]))
    ensures |r| <= |input|
  {
    var a := RemoveAngleBrackets(input);
    var b := RemoveProtocol(a);
    var c := RemoveHandlers(b);
    DeletionsKeepAbsent(a, b, '<');
    DeletionsKeepAbsent(b, c, '<');
    DeletionsKeepAbsent(a, b, '>');
    DeletionsKeepAbsent(b, c, '>');
    TrimKeepsAbsent(c, '<');
    TrimKeepsAbsent(c, '>');
    Trim(c)
  }

  /** A character missing from a string is missing from what is drawn from it. */
  lemma DeletionsKeepAbsent(s: string, r: string, ch: char)
    requires DrawnFrom(r, s) && ch !in s
    ensures ch !in r
  {
  }

  /** Trimming adds no character. */
  lemma TrimKeepsAbsent(c: string, ch: char)
    requires ch !in c
    ensures ch !in Trim(c)
  {
    TrimDrawnFrom(c);
  }

  /** When the pattern occurs, the pass deletes something. */
  lemma {:induction false} RemoveProtocolShrinks(s: string)
    ensures ContainsCI(s, Protocol) ==> |RemoveProtocol(s)| < |s|
    decreases |s|
  {
    if s != [] && !MatchesCIAt(s, 0, Protocol) {
      ContainsAfterStart(s, Protocol);
      RemoveProtocolShrinks(s[1..]);
    }
  }

  /** When the pattern does not occur, the pass changes nothing. */
  lemma {:induction false} RemoveProtocolNoop(s: string)
    ensures !ContainsCI(s, Protocol) ==> RemoveProtocol(s) == s
    decreases |s|
  {
    if s != [] && !MatchesCIAt(s, 0, Protocol) {
      ContainsInTail(s, Protocol);
      RemoveProtocolNoop(s[1..]);
      assert [s[0]] + s[1..] == s;
    }
  }

  lemma {:induction false} RemoveHandlersShrinks(s: string)
    ensures HasHandler(s) ==> |RemoveHandlers(s)| < |s|
    decreases |s|
  {
    if s != [] && HandlerMatch(s).None? {
      HandlerAfterStart(s);
      RemoveHandlersShrinks(s[1..]);
    }
  }

  // =====================================================================
  // isSafeString
  // =====================================================================

  /** isSafeString: none of the six dangerous patterns occurs, ignoring ASCII case. */
  predicate IsSafeString(input: string) {
    !ContainsCI(input, "<script") && !ContainsCI(input, Protocol) && !HasHandler(input) &&
    !ContainsCI(input, "<iframe") && !ContainsCI(input, "<object") && !ContainsCI(input, "<embed")
  }

  /** A string holding none of `<`, `:` and `=` is always judged safe, whatever its case. */
  lemma SafeWithoutMarkupCharacters(s: string)
    requires '<' !in s && ':' !in s && '=' !in s
    ensures IsSafeString(s)
  {
    NoMatchWithoutFirstChar(s, "<script");
    NoMatchWithoutFirstChar(s, "<iframe");
    NoMatchWithoutFirstChar(s, "<object");
    NoMatchWithoutFirstChar(s, "<embed");
    NoHandlerWithoutEquals(s);
    forall i: nat | i + |Protocol| <= |s| ensures !MatchesCIAt(s, i, Protocol) {
      assert s[i + 10] in s;
      assert LowerAscii(s[i + 10]) != Protocol[10];
    }
  }

  /** The check ignores ASCII case: an upper-case script tag is rejected. */
  lemma UpperCaseScriptIsUnsafe()
    ensures !IsSafeString("<SCRIPT>")
  {
    assert MatchesCIAt("<SCRIPT>", 0, "<script");
  }

  // =====================================================================
  // Finding: single-pass removal can rebuild the protocol it removes
  // =====================================================================

  /** As written, sanitizeString removes `javascript:` in one pass, so an input that
      wraps one occurrence inside another comes out holding `javascript:`, and its
      output is then rejected by isSafeString. */
  lemma SanitizeStringCanRebuildProtocol()
    ensures SanitizeString("javajavascript:script:") == "javascript:"
    ensures !IsSafeString(SanitizeString("javajavascript:script:"))
  {
    var s := "javajavascript:script:";
    NestedSpelling(s);
    NestedKeepsAngles(s);
    NestedProtocolPass(s);
    ProtocolSurvivesRest(Protocol);
  }

  lemma NestedSpelling(s: string)
    requires s == "javajavascript:script:"
    ensures s == "java" + Protocol + "script:"
  {
  }

  lemma NestedKeepsAngles(s: string)
    requires s == "javajavascript:script:"
    ensures RemoveAngleBrackets(s) == s
  {
    RemoveAngleBracketsNoop(s);
  }

  /** The later steps of sanitizeString leave `javascript:` as it is, and isSafeString
      rejects it. */
  lemma ProtocolSurvivesRest(b: string)
    requires b == Protocol
    ensures Trim(RemoveHandlers(b)) == b
    ensures !IsSafeString(b)
  {
    ProtocolKeptByHandlerPass(b);
    ProtocolKeptByTrim(b);
    ProtocolIsUnsafe(b);
  }

  lemma ProtocolKeptByHandlerPass(b: string)
    requires b == Protocol
    ensures RemoveHandlers(b) == b
  {
    NoHandlerWithoutEquals(b);
    RemoveHandlersNoop(b);
  }

  lemma ProtocolKeptByTrim(b: string)
    requires b == Protocol
    ensures Trim(b) == b
  {
    TrimNoop(b);
  }

  lemma ProtocolIsUnsafe(b: string)
    requires b == Protocol
    ensures !IsSafeString(b)
  {
    assert MatchesCIAt(b, 0, Protocol);
  }

  /** The single `javascript:` pass on the nested input leaves one `javascript:` behind. */
  lemma NestedProtocolPass(s: string)
    requires s == "java" + Protocol + "script:"
    ensures RemoveProtocol(s) == Protocol
  {
    var t := Protocol + "script:";
    NestedPassKeepsJava(s, t);
    NestedPassDropsMatch(t, "script:");
    ProtocolHalves();
  }

  lemma ProtocolHalves()
    ensures "java" + "script:" == Protocol
  {
  }

  lemma NestedPassKeepsJava(s: string, t: string)
    requires t == Protocol + "script:" && s == "java" + t
    ensures RemoveProtocol(s) == "java" + RemoveProtocol(t)
  {
    assert s[..4] == "java" && s[4..] == t;
    assert LowerAscii(s[4]) != Protocol[4];
    assert LowerAscii(s[1]) != Protocol[0];
    assert LowerAscii(s[2]) != Protocol[0];
    assert LowerAscii(s[3]) != Protocol[0];
    KeepsFour(s);
  }

  /** When none of the first four positions starts a match, the pass keeps them. */
  lemma KeepsFour(s: string)
    requires |s| > 4 && LowerAscii(s[4]) != Protocol[4]
    requires LowerAscii(s[1]) != Protocol[0] && LowerAscii(s[2]) != Protocol[0]
    requires LowerAscii(s[3]) != Protocol[0]
    ensures RemoveProtocol(s) == s[..4] + RemoveProtocol(s[4..])
  {
    var s1, s2, s3 := s[1..], s[2..], s[3..];
    assert s1[1..] == s2 && s2[1..] == s3 && s3[1..] == s[4..];
    KeptWhereMismatch(s, 4);
    KeptWhereMismatch(s1, 0);
    KeptWhereMismatch(s2, 0);
    KeptWhereMismatch(s3, 0);
    assert s1[0] == s[1] && s2[0] == s[2] && s3[0] == s[3];
    FourInFront(s, RemoveProtocol(s[4..]));
  }

  lemma FourInFront(s: string, r: string)
    requires |s| >= 4
    ensures [s[0]] + ([s[1]] + ([s[2]] + ([s[3]] + r))) == s[..4] + r
  {
  }

  /** Where the first `|Protocol|` characters differ from it somewhere, the pass keeps the
      first character and goes on. */
  lemma KeptWhereMismatch(s: string, k: nat)
    requires k < |Protocol| && k < |s| && LowerAscii(s[k]) != Protocol[k]
    ensures RemoveProtocol(s) == [s[0]] + RemoveProtocol(s[1..])
  {
    RemoveProtocolStep(s);
  }

  /** Where no match starts, the pass keeps the first character and goes on. */
  lemma RemoveProtocolStep(s: string)
    requires |s| > 0 && !MatchesCIAt(s, 0, Protocol)
    ensures RemoveProtocol(s) == [s[0]] + RemoveProtocol(s[1..])
  {
  }

  lemma NestedPassDropsMatch(t: string, rest: string)
    requires rest == "script:" && t == Protocol + rest
    ensures RemoveProtocol(t) == rest
  {
    assert MatchesCIAt(t, 0, Protocol);
    assert t[|Protocol|..] == rest;
    assert !ContainsCI(rest, Protocol);
    RemoveProtocolNoop(rest);
  }

  lemma {:induction false} RemoveAngleBracketsNoop(s: string)
    requires '<' !in s && '>' !in s
    ensures RemoveAngleBrackets(s) == s
    decreases |s|
  {
    if s != [] {
      assert forall k :: 0 <= k < |s[1..]| ==> s[1..][k] in s;
      RemoveAngleBracketsNoop(s[1..]);
      assert [s[0]] + s[1..] == s;
    }
  }

  lemma {:induction false} RemoveHandlersNoop(s: string)
    ensures !HasHandler(s) ==> RemoveHandlers(s) == s
    decreases |s|
  {
    if s != [] && !HasHandler(s) {
      assert s[0..] == s;
      assert !HandlerAt(s, 0);
      HandlerInTail(s);
      RemoveHandlersNoop(s[1..]);
      assert [s[0]] + s[1..] == s;
    }
  }

  /** Repeats both removal passes until neither changes anything. */
  function RemoveUntilStable(s: string): (r: string)
    ensures DrawnFrom(r, s)
    ensures !ContainsCI(r, Protocol) && !HasHandler(r)
    decreases |s|
  {
    var t := RemoveHandlers(RemoveProtocol(s));
    if |t| < |s| then
      RemoveUntilStable(t)
    else
      RemoveProtocolShrinks(s);
      RemoveProtocolNoop(s);
      RemoveHandlersShrinks(s);
      s
  }

  /** sanitizeString as evidently intended: the removals are repeated until stable,
      so its output always passes isSafeString. */
  function SanitizeStringStable(input: string): (r: string)
    ensures '<' !in r && '>' !in r
    ensures r == [] || (!IsJsWhitespace(r[0]) && !IsJsWhitespace(r[|r| - 1]))
    ensures |r| <= |input|
  {
    var a := RemoveAngleBrackets(input);
    var c := RemoveUntilStable(a);
    DeletionsKeepAbsent(a, c, '<');
    DeletionsKeepAbsent(a, c, '>');
    TrimKeepsAbsent(c, '<');
    TrimKeepsAbsent(c, '>');
    Trim(c)
  }

  /** The repaired sanitizer's output always passes isSafeString. */
  lemma SanitizeStringStableIsSafe(input: string)
    ensures IsSafeString(SanitizeStringStable(input))
  {
    var a := RemoveAngleBrackets(input);
    var c := RemoveUntilStable(a);
    assert '<' !in c by {
      assert forall k :: 0 <= k < |c| ==> c[k] in a;
    }
    TrimmedStaysSafe(c);
  }

  lemma TrimmedStaysSafe(c: string)
    requires '<' !in c && !ContainsCI(c, Protocol) && !HasHandler(c)
    ensures IsSafeString(Trim(c))
  {
    var from := TrimCutsOnlyWhitespace(c);
    CleanSliceIsSafe(c, from, from + |Trim(c)|, Trim(c));
  }

  /** A piece of a string with no `<`, no `javascript:` and no `on…=` passes isSafeString. */
  lemma CleanSliceIsSafe(c: string, a: nat, b: nat, r: string)
    requires a <= b <= |c| && r == c[a..b]
    requires '<' !in c && !ContainsCI(c, Protocol) && !HasHandler(c)
    ensures IsSafeString(r)
  {
    ContainsInSlice(c, a, b, Protocol);
    HandlerInSlice(c, a, b);
    forall k | 0 <= k < |r| ensures r[k] != '<' {
      assert r[k] == c[a + k];
    }
    SafeWithoutTagsOrRemnants(r);
  }

  /** A string with no `<`, no `javascript:` and no `on…=` passes isSafeString. */
  lemma SafeWithoutTagsOrRemnants(r: string)
    requires '<' !in r && !ContainsCI(r, Protocol) && !HasHandler(r)
    ensures IsSafeString(r)
  {
    NoMatchWithoutFirstChar(r, "<script");
    NoMatchWithoutFirstChar(r, "<iframe");
    NoMatchWithoutFirstChar(r, "<object");
    NoMatchWithoutFirstChar(r, "<embed");
  }

  // =====================================================================
  // stripHtml
  // =====================================================================

  /** No `<` in `r` is followed, anywhere later, by a `>`. */
  predicate NoTagLeft(r: string) {
    forall i, j :: 0 <= i < j < |r| && r[i] == '<' ==> r[j] != '>'
  }

  /** stripHtml, `.replace(/<[^>]*>/g, '')`: every `<` that has a `>` somewhere after it
      starts a match running to the first such `>`, and the match is deleted. */
  function StripHtml(input: string): (r: string)
    ensures DrawnFrom(r, input)
    ensures NoTagLeft(r)
    decreases |input|
  {
    if input == [] then []
    else if input[0] == '<' then
      match IndexOfChar(input, '>', 1)
      case Some(j) => StripHtml(input[j + 1..])
      case None =>
        var rest := StripHtml(input[1..]);
        assert '>' !in input[1..];
        [input[0]] + rest
    else [input[0]] + StripHtml(input[1..])
  }

  /** Text without `<` passes through stripHtml unchanged. */
  lemma {:induction false} StripHtmlNoop(s: string)
    requires '<' !in s
    ensures StripHtml(s) == s
    decreases |s|
  {
    if s != [] {
      assert forall k :: 0 <= k < |s[1..]| ==> s[1..][k] in s;
      StripHtmlNoop(s[1..]);
      assert [s[0]] + s[1..] == s;
    }
  }

  // =====================================================================
  // maskEmail
  // =====================================================================

  /** How a template literal renders a missing value. */
  const Undefined: string := "undefined"

  /** maskEmail: `const [localPart, domain] = email.split('@')`, then the first character
      (and, for a local part longer than two, the last one) around `***`. A missing piece
      is rendered as `undefined`, as the template literal does. */
  function MaskEmail(email: string): (r: string)
  {
    var parts := Split(email, "@");
    var localPart := parts[0];
    var domain := if |parts| > 1 then parts[1] else Undefined;
    if |localPart| <= 2 then
      (if |localPart| > 0 then [localPart[0]] else Undefined) + "***@" + domain
    else
      [localPart[0]] + "***" + [localPart[|localPart| - 1]] + "@" + domain
  }

  /** The first two pieces of `l@d…` are `l` and `d`. */
  lemma SplitEmail(l: string, d: string, tail: string)
    requires '@' !in l && '@' !in d && (tail == [] || tail[0] == '@')
    ensures var parts := Split(l + "@" + d + tail, "@");
      |parts| > 1 && parts[0] == l && parts[1] == d
  {
    assert l + "@" + d + tail == l + ['@'] + (d + tail);
    SplitAtFirst(l, '@', d + tail);
    if tail == [] {
      assert d + tail == d;
      SplitWithout(d, '@');
    } else {
      assert d + tail == d + ['@'] + tail[1..];
      SplitAtFirst(d, '@', tail[1..]);
    }
  }

  /** A local part of one or two characters keeps only its first character. */
  lemma MaskEmailShortLocal(l: string, d: string, tail: string)
    requires 1 <= |l| <= 2 && '@' !in l && '@' !in d && (tail == [] || tail[0] == '@')
    ensures MaskEmail(l + "@" + d + tail) == [l[0]] + "***@" + d
  {
    SplitEmail(l, d, tail);
  }

  /** A longer local part keeps its first and last characters; everything after a second
      `@` is dropped. */
  lemma MaskEmailLongLocal(l: string, d: string, tail: string)
    requires |l| > 2 && '@' !in l && '@' !in d && (tail == [] || tail[0] == '@')
    ensures MaskEmail(l + "@" + d + tail) == [l[0]] + "***" + [l[|l| - 1]] + "@" + d
  {
    SplitEmail(l, d, tail);
  }

  /** An empty local part is rendered as `undefined`. */
  lemma MaskEmailEmptyLocal(d: string, tail: string)
    requires '@' !in d && (tail == [] || tail[0] == '@')
    ensures MaskEmail("@" + d + tail) == Undefined + "***@" + d
  {
    assert "@" + d + tail == [] + "@" + d + tail;
    SplitEmail([], d, tail);
  }

  /** An input of at most two characters without an `@` keeps its first character, if it
      has one, and renders the domain as `undefined`. */
  lemma MaskEmailShortWithoutAt(email: string)
    requires '@' !in email && |email| <= 2
    ensures MaskEmail(email) ==
      (if |email| > 0 then [email[0]] else Undefined) + "***@" + Undefined
  {
    SplitWithout(email, '@');
  }

  /** Without an `@` the domain is rendered as `undefined`. */
  lemma MaskEmailWithoutAt(email: string)
    requires '@' !in email && |email| > 2
    ensures MaskEmail(email) == [email[0]] + "***" + [email[|email| - 1]] + "@" + Undefined
  {
    SplitWithout(email, '@');
  }

  // =====================================================================
  // maskPhone
  // =====================================================================

  /** `.replace(/./g, '*')`: `.` matches every character except the line terminators. */
  function MaskEveryChar(s: string): (r: string)
    ensures |r| == |s|
    ensures forall k :: 0 <= k < |s| ==> r[k] == (if IsLineTerminator(s[k]) then s[k] else '*')
    decreases |s|
  {
    if s == [] then [] else [if IsLineTerminator(s[0]) then s[0] else '*'] + MaskEveryChar(s[1..])
  }

  /** `'*'.repeat(n)` */
  function Stars(n: nat): (r: string)
    ensures |r| == n && forall k :: 0 <= k < n ==> r[k] == '*'
  {
    seq(n, _ => '*')
  }

  /** maskPhone always preserves the length. Up to six characters everything is masked;
      beyond that the first three and the last four are kept and the middle is masked. */
  function MaskPhone(phone: string): (r: string)
    ensures |r| == |phone|
    ensures |phone| <= 6 ==> forall k :: 0 <= k < |phone| ==>
              r[k] == (if IsLineTerminator(phone[k]) then phone[k] else '*')
    ensures |phone| > 6 ==> forall k :: 0 <= k < |phone| ==>
              r[k] == (if k < 3 || k >= |phone| - 4 then phone[k] else '*')
  {
    if |phone| <= 6 then MaskEveryChar(phone)
    else
      var visible := 3;
      phone[..visible] + Stars(|phone| - visible - 4) + phone[|phone| - 4..]
  }

  /** Two long phone numbers that differ only in their middle give the same mask. */
  lemma MaskPhoneHidesMiddle(p: string, q: string)
    requires |p| == |q| > 6
    requires p[..3] == q[..3] && p[|p| - 4..] == q[|q| - 4..]
    ensures MaskPhone(p) == MaskPhone(q)
  {
    var a, b := MaskPhone(p), MaskPhone(q);
    forall k | 0 <= k < |p| ensures a[k] == b[k] {
      if k < 3 {
        assert p[k] == p[..3][k] && q[k] == q[..3][k];
      } else if k >= |p| - 4 {
        assert p[k] == p[|p| - 4..][k - (|p| - 4)] && q[k] == q[|q| - 4..][k - (|q| - 4)];
      }
    }
  }

  // =====================================================================
  // maskCardNumber
  // =====================================================================

  /** `.replace(/\s/g, '')` */
  function RemoveWhitespace(s: string): (r: string)
    ensures DrawnFrom(r, s)
    ensures forall k :: 0 <= k < |r| ==> !IsJsWhitespace(r[k])
    decreases |s|
  {
    if s == [] then []
    else if IsJsWhitespace(s[0]) then RemoveWhitespace(s[1..])
    else [s[0]] + RemoveWhitespace(s[1..])
  }

  lemma {:induction false} RemoveWhitespaceAppend(a: string, b: string)
    ensures RemoveWhitespace(a + b) == RemoveWhitespace(a) + RemoveWhitespace(b)
    decreases |a|
  {
    if a == [] {
      assert a + b == b;
    } else {
      assert (a + b)[0] == a[0] && (a + b)[1..] == a[1..] + b;
      RemoveWhitespaceAppend(a[1..], b);
    }
  }

  /** `s.slice(-n)` for n > 0: the last n characters, or all of `s` when it is shorter. */
  function LastUpTo(s: string, n: nat): (r: string)
    ensures |r| == (if |s| <= n then |s| else n)
    ensures r == s[|s| - |r|..]
  {
    if |s| <= n then s else s[|s| - n..]
  }

  const CardMask: string := "****-****-****-"

  /** maskCardNumber: the fixed mask followed by the last (up to) four characters of the
      number once its whitespace is removed. */
  function MaskCardNumber(cardNumber: string): (r: string)
    ensures |CardMask| <= |r| <= |CardMask| + 4 && r[..|CardMask|] == CardMask
    ensures forall k :: |CardMask| <= k < |r| ==> !IsJsWhitespace(r[k])
  {
    var cleaned := RemoveWhitespace(cardNumber);
    var lastFour := LastUpTo(cleaned, 4);
    CardMask + lastFour
  }

  /** Whitespace anywhere in the number does not change the mask. */
  lemma MaskCardIgnoresWhitespace(a: string, w: string, b: string)
    requires forall k :: 0 <= k < |w| ==> IsJsWhitespace(w[k])
    ensures MaskCardNumber(a + w + b) == MaskCardNumber(a + b)
  {
    RemoveWhitespaceAppend(a + w, b);
    RemoveWhitespaceAppend(a, w);
    RemoveWhitespaceAppend(a, b);
    AllWhitespaceRemoved(w);
    assert RemoveWhitespace(a) + [] == RemoveWhitespace(a);
    SameCleanedSameMask(a + w + b, a + b);
  }

  lemma SameCleanedSameMask(p: string, q: string)
    requires RemoveWhitespace(p) == RemoveWhitespace(q)
    ensures MaskCardNumber(p) == MaskCardNumber(q)
  {
  }

  lemma {:induction false} AllWhitespaceRemoved(w: string)
    requires forall k :: 0 <= k < |w| ==> IsJsWhitespace(w[k])
    ensures RemoveWhitespace(w) == []
    decreases |w|
  {
    if w != [] {
      assert IsJsWhitespace(w[0]);
      AllWhitespaceRemoved(w[1..]);
    }
  }

  lemma {:induction false} NoWhitespaceKept(s: string)
    requires forall k :: 0 <= k < |s| ==> !IsJsWhitespace(s[k])
    ensures RemoveWhitespace(s) == s
    decreases |s|
  {
    if s != [] {
      NoWhitespaceKept(s[1..]);
      assert [s[0]] + s[1..] == s;
    }
  }

  /** A number without whitespace shows its last four characters, or all of them when it
      has fewer. */
  lemma MaskCardShowsLastFour(cardNumber: string)
    requires forall k :: 0 <= k < |cardNumber| ==> !IsJsWhitespace(cardNumber[k])
    ensures MaskCardNumber(cardNumber) ==
      CardMask + (if |cardNumber| <= 4 then cardNumber else cardNumber[|cardNumber| - 4..])
  {
    NoWhitespaceKept(cardNumber);
  }

  /** Whatever the number, what follows the mask is the end of the number with its
      whitespace removed: its last four characters, or all of them when there are fewer. */
  lemma MaskCardShowsCleanedTail(cardNumber: string)
    ensures var cleaned := RemoveWhitespace(cardNumber);
      var tail := MaskCardNumber(cardNumber)[|CardMask|..];
      |tail| == (if |cleaned| <= 4 then |cleaned| else 4) &&
      tail == cleaned[|cleaned| - |tail|..]
  {
    var cleaned := RemoveWhitespace(cardNumber);
    var r := MaskCardNumber(cardNumber);
    assert r == CardMask + LastUpTo(cleaned, 4);
    assert r[|CardMask|..] == LastUpTo(cleaned, 4);
  }

  // =====================================================================
  // validateFile
  // =====================================================================

  /** The two properties of a browser `File` that validateFile reads. */
  datatype FileInfo = FileInfo(size: int, fileType: string)

  /** The options object; a missing entry takes its default. */
  datatype FileOptions = FileOptions(maxSize: Option<int>, allowedTypes: Option<seq<string>>)

  /** Which check failed; the message text (with its megabyte figure) is not modelled. */
  datatype FileError = TooLarge(maxSize: int) | TypeNotAllowed(fileType: string)

  datatype FileVerdict = FileVerdict(valid: bool, error: Option<FileError>)

  /** 5 MB */
  const DefaultMaxSize: int := 5 * 1024 * 1024

  /** validateFile: the size limit is checked first, then the type list; an empty list
      allows every type. */
  function ValidateFile(file: FileInfo, options: FileOptions): (v: FileVerdict)
    ensures v.valid <==> v.error.None?
    ensures v.valid <==>
      file.size <= options.maxSize.GetOr(DefaultMaxSize) &&
      (options.allowedTypes.GetOr([]) == [] || file.fileType in options.allowedTypes.GetOr([]))
    ensures file.size > options.maxSize.GetOr(DefaultMaxSize) ==>
      v.error == Some(TooLarge(options.maxSize.GetOr(DefaultMaxSize)))
    ensures file.size <= options.maxSize.GetOr(DefaultMaxSize) && !v.valid ==>
      v.error == Some(TypeNotAllowed(file.fileType))
  {
    var maxSize := options.maxSize.GetOr(DefaultMaxSize);
    var allowedTypes := options.allowedTypes.GetOr([]);
    if file.size > maxSize then
      FileVerdict(false, Some(TooLarge(maxSize)))
    else if |allowedTypes| > 0 && file.fileType !in allowedTypes then
      FileVerdict(false, Some(TypeNotAllowed(file.fileType)))
    else
      FileVerdict(true, None)
  }

  /** Raising the size limit never turns an accepted file into a rejected one. */
  lemma ValidateFileMonotone(file: FileInfo, m: int, n: int, types: Option<seq<string>>)
    requires m <= n
    requires ValidateFile(file, FileOptions(Some(m), types)).valid
    ensures ValidateFile(file, FileOptions(Some(n), types)).valid
  {
  }

  // =====================================================================
  // RateLimiter
  // =====================================================================

  /** `attempts.filter((time) => now - time < windowMs)` */
  function Recent(attempts: seq<int>, windowMs: int, now: int): (r: seq<int>)
    ensures |r| <= |attempts|
    ensures forall t :: t in r <==> t in attempts && now - t < windowMs
    decreases |attempts|
  {
    if attempts == [] then []
    else (if now - attempts[0] < windowMs then [attempts[0]] else [])
         + Recent(attempts[1..], windowMs, now)
  }

  /** `this.attempts.get(key) || []` */
  function Stored(m: map<string, seq<int>>, key: string): seq<int> {
    if key in m then m[key] else []
  }

  /** Whether `check` lets the request through. */
  predicate Allows(m: map<string, seq<int>>, key: string, maxAttempts: int, windowMs: int, now: int) {
    |Recent(Stored(m, key), windowMs, now)| < maxAttempts
  }

  /** The stored attempts after `check`. */
  function AfterCheck(m: map<string, seq<int>>, key: string, maxAttempts: int, windowMs: int, now: int)
    : map<string, seq<int>>
  {
    if Allows(m, key, maxAttempts, windowMs, now)
    then m[key := Recent(Stored(m, key), windowMs, now) + [now]]
    else m
  }

  /** The client-side rate limiter: per key, the timestamps of the recent allowed attempts.
      The clock reading that `check` takes from `Date.now()` is its `now` parameter. */
  class RateLimiter {
    var attempts: map<string, seq<int>>

    constructor ()
      ensures attempts == map[]
    {
      attempts := map[];
    }

    /** check: allowed exactly when fewer than `maxAttempts` stored attempts lie within the
        window; then the key keeps only its recent attempts followed by `now`. A refused
        check changes nothing. */
    method Check(key: string, maxAttempts: int, windowMs: int, now: int) returns (allowed: bool)
      modifies this
      ensures allowed == Allows(old(attempts), key, maxAttempts, windowMs, now)
      ensures allowed ==>
        attempts == old(attempts)[key := Recent(Stored(old(attempts), key), windowMs, now) + [now]]
      ensures !allowed ==> attempts == old(attempts)
      ensures allowed ==> |attempts[key]| <= maxAttempts
      ensures forall k :: k != key ==> Stored(attempts, k) == Stored(old(attempts), k)
    {
      var previous := if key in attempts then attempts[key] else [];
      var recentAttempts := Recent(previous, windowMs, now);
      if |recentAttempts| >= maxAttempts {
        return false;
      }
      recentAttempts := recentAttempts + [now];
      attempts := attempts[key := recentAttempts];
      return true;
    }

    /** reset: forgets the key and nothing else. */
    method Reset(key: string)
      modifies this
      ensures attempts == old(attempts) - {key}
      ensures key !in attempts
      ensures forall k :: k != key ==> Stored(attempts, k) == Stored(old(attempts), k)
    {
      attempts := attempts - {key};
    }
  }

  /** After a reset the next check on that key is allowed whenever at least one attempt is. */
  lemma CheckAfterResetAllowed(m: map<string, seq<int>>, key: string, maxAttempts: int, windowMs: int, now: int)
    requires maxAttempts >= 1
    ensures Allows(m - {key}, key, maxAttempts, windowMs, now)
  {
  }

  /** A check never touches another key. */
  lemma CheckLeavesOtherKeys(m: map<string, seq<int>>, key: string, other: string,
                             maxAttempts: int, windowMs: int, now: int)
    requires other != key
    ensures Stored(AfterCheck(m, key, maxAttempts, windowMs, now), other) == Stored(m, other)
  {
  }

  /** After a check every stored attempt of the key is within the window of `now`, or is
      `now` itself. */
  lemma CheckKeepsOnlyRecent(m: map<string, seq<int>>, key: string, maxAttempts: int, windowMs: int, now: int)
    requires Allows(m, key, maxAttempts, windowMs, now)
    ensures forall t :: t in Stored(AfterCheck(m, key, maxAttempts, windowMs, now), key) ==>
              t == now || now - t < windowMs
  {
  }

  /** Runs `check` for `key` at each clock reading in turn; gives the final attempts and
      how many checks were allowed. */
  function RunChecks(m: map<string, seq<int>>, key: string, maxAttempts: int, windowMs: int,
                     times: seq<int>): (map<string, seq<int>>, nat)
    decreases |times|
  {
    if times == [] then (m, 0)
    else
      var allowed := Allows(m, key, maxAttempts, windowMs, times[0]);
      var (final, n) := RunChecks(AfterCheck(m, key, maxAttempts, windowMs, times[0]),
                                  key, maxAttempts, windowMs, times[1..]);
      (final, n + if allowed then 1 else 0)
  }

  /** The number of timestamps at or after `lo`. */
  function CountFrom(ts: seq<int>, lo: int): (n: nat)
    ensures n <= |ts|
    decreases |ts|
  {
    if ts == [] then 0 else (if ts[0] >= lo then 1 else 0) + CountFrom(ts[1..], lo)
  }

  lemma {:induction false} CountFromAppend(ts: seq<int>, t: int, lo: int)
    ensures CountFrom(ts + [t], lo) == CountFrom(ts, lo) + (if t >= lo then 1 else 0)
    decreases |ts|
  {
    if ts == [] {
      assert ts + [t] == [t];
    } else {
      assert (ts + [t])[1..] == ts[1..] + [t];
      CountFromAppend(ts[1..], t, lo);
    }
  }

  /** Filtering at a time `now` within the window of `lo` keeps every timestamp at or after `lo`. */
  lemma {:induction false} RecentKeepsCountFrom(ts: seq<int>, windowMs: int, now: int, lo: int)
    requires now - lo < windowMs
    ensures CountFrom(Recent(ts, windowMs, now), lo) == CountFrom(ts, lo)
    decreases |ts|
  {
    if ts != [] {
      RecentKeepsCountFrom(ts[1..], windowMs, now, lo);
      var head := if now - ts[0] < windowMs then [ts[0]] else [];
      var rest := Recent(ts[1..], windowMs, now);
      CountFromConcat(head, rest, lo);
    }
  }

  lemma {:induction false} CountFromConcat(a: seq<int>, b: seq<int>, lo: int)
    ensures CountFrom(a + b, lo) == CountFrom(a, lo) + CountFrom(b, lo)
    decreases |a|
  {
    if a == [] {
      assert a + b == b;
    } else {
      assert (a + b)[1..] == a[1..] + b;
      CountFromConcat(a[1..], b, lo);
    }
  }

  /** Sliding-window guarantee: however the attempts stood before, among checks of one key
      whose clock readings all lie within one window-length span starting at `lo`, at most
      `maxAttempts` are allowed (none when it is not positive). */
  lemma {:induction false} AtMostMaxPerWindow(m: map<string, seq<int>>, key: string, maxAttempts: int,
                                               windowMs: int, lo: int, times: seq<int>)
    requires forall i :: 0 <= i < |times| ==> lo <= times[i] && times[i] - lo < windowMs
    ensures var n := RunChecks(m, key, maxAttempts, windowMs, times).1;
      n == 0 || CountFrom(Stored(m, key), lo) + n <= maxAttempts
    decreases |times|
  {
    if times != [] {
      var now := times[0];
      var ts := Stored(m, key);
      var m' := AfterCheck(m, key, maxAttempts, windowMs, now);
      AtMostMaxPerWindow(m', key, maxAttempts, windowMs, lo, times[1..]);
      RecentKeepsCountFrom(ts, windowMs, now, lo);
      if Allows(m, key, maxAttempts, windowMs, now) {
        var recent := Recent(ts, windowMs, now);
        CountFromAppend(recent, now, lo);
        assert Stored(m', key) == recent + [now];
      }
    }
  }

  /** The same guarantee whatever was stored before: at most `maxAttempts` allowed checks. */
  lemma AllowedChecksBounded(m: map<string, seq<int>>, key: string, maxAttempts: int,
                             windowMs: int, lo: int, times: seq<int>)
    requires forall i :: 0 <= i < |times| ==> lo <= times[i] && times[i] - lo < windowMs
    ensures RunChecks(m, key, maxAttempts, windowMs, times).1 <= if maxAttempts > 0 then maxAttempts else 0
  {
    AtMostMaxPerWindow(m, key, maxAttempts, windowMs, lo, times);
  }
}
