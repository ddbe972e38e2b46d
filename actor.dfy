/** Extracting the credentials from an Authorization header (actor.go). */
module Actor {
  import opened Strs

  /** unicode.ToLower restricted to ASCII letters; every other character is
      kept as it is. */
  function LowerChar(c: char): (r: char)
    ensures 'A' <= c <= 'Z' ==> r as int == c as int + 32
    ensures !('A' <= c <= 'Z') ==> r == c
  {
    if 'A' <= c <= 'Z' then (c as int + 32) as char else c
  }

  /** strings.ToLower, character by character. */
  function ToLower(s: string): (r: string)
    ensures |r| == |s| && forall i :: 0 <= i < |s| ==> r[i] == LowerChar(s[i])
  {
    if s == [] then [] else [LowerChar(s[0])] + ToLower(s[1..])
  }

  /** The lowercase form of the scheme name. */
  const Prefix := "bearer"

  /** trimBearer (actor.go:16-25): the header without surrounding white
      space and, when it then starts with "bearer" in any letter case,
      without those six letters and the white space after them. */
  function TrimBearer(authHeader: string): (r: string)
    ensures |r| <= |authHeader|
    ensures Trimmed(r)
  {
    TrimSpaceSpec(authHeader);
    StripScheme(TrimSpace(authHeader))
  }

  /** The part of trimBearer after the outer white space is gone. */
  function StripScheme(t: string): (r: string)
    ensures |r| <= |t|
    ensures Trimmed(t) ==> Trimmed(r)
  {
    if HasPrefix(ToLower(t), Prefix) then
      TrimSpaceSpec(t[|Prefix|..]);
      TrimSpace(t[|Prefix|..])
    else
      t
  }

  /** A word spelling "bearer" in any mix of letter cases. */
  predicate IsBearer(w: string) {
    ToLower(w) == Prefix
  }

  /** A trimmed header is left to StripScheme alone. */
  lemma TrimmedHeader(t: string)
    requires Trimmed(t)
    ensures TrimBearer(t) == StripScheme(t)
  {
    TrimSpaceOfPadded([], t, []);
    assert [] + t + [] == t;
  }

  /** White space around a trimmed header makes no difference. */
  lemma PaddingIgnored(before: string, t: string, after: string)
    requires AllSpace(before) && AllSpace(after) && Trimmed(t)
    ensures TrimBearer(before + t + after) == StripScheme(t)
  {
    TrimSpaceOfPadded(before, t, after);
  }

  /** A header that starts with the scheme keeps what follows it. */
  lemma SchemeRecognised(scheme: string, rest: string)
    requires IsBearer(scheme)
    ensures HasPrefix(ToLower(scheme + rest), Prefix) && (scheme + rest)[|Prefix|..] == rest
  {
    var t := scheme + rest;
    assert ToLower(t)[..6] == ToLower(scheme);
  }

  /** The scheme always starts and ends with a letter. */
  lemma SchemeTrimmed(scheme: string)
    requires IsBearer(scheme)
    ensures |scheme| == 6 && !IsSpace(scheme[0]) && !IsSpace(scheme[5])
  {
    assert LowerChar(scheme[0]) == 'b' && LowerChar(scheme[5]) == 'r';
  }

  /** With the scheme present, in any letter case and with any white space
      before, between and after, the result is exactly the credentials. */
  lemma {:induction false} BearerTokenExtracted(before: string, scheme: string, between: string, token: string, after: string)
    requires AllSpace(before) && AllSpace(between) && AllSpace(after)
    requires IsBearer(scheme) && Trimmed(token)
    ensures TrimBearer(before + scheme + between + token + after) == token
  {
    if token == [] {
      assert before + scheme + between + token + after == before + scheme + (between + after);
      SchemeAlone(before, scheme, between + after);
    } else {
      var t := scheme + (between + token);
      assert before + scheme + between + token + after == before + t + after;
      SchemeThenToken(before, scheme, between, token, after);
    }
  }

  /** The scheme with nothing after it leaves no credentials. */
  lemma SchemeAlone(before: string, scheme: string, after: string)
    requires AllSpace(before) && AllSpace(after) && IsBearer(scheme)
    ensures TrimBearer(before + scheme + after) == []
  {
    SchemeTrimmed(scheme);
    PaddingIgnored(before, scheme, after);
    SchemeStripped(scheme, []);
    assert scheme + [] == scheme;
    TrimSpaceOfPadded([], [], []);
  }

  lemma SchemeThenToken(before: string, scheme: string, between: string, token: string, after: string)
    requires AllSpace(before) && AllSpace(between) && AllSpace(after)
    requires IsBearer(scheme) && Trimmed(token) && token != []
    ensures TrimBearer(before + (scheme + (between + token)) + after) == token
  {
    var t := scheme + (between + token);
    SchemeTrimmed(scheme);
    assert t[0] == scheme[0] && t[|t| - 1] == token[|token| - 1];
    PaddingIgnored(before, t, after);
    SchemeStripped(scheme, between + token);
    TrimSpaceOfPadded(between, token, []);
    assert between + token + [] == between + token;
  }

  /** StripScheme on a header that starts with the scheme. */
  lemma SchemeStripped(scheme: string, rest: string)
    requires IsBearer(scheme)
    ensures StripScheme(scheme + rest) == TrimSpace(rest)
  {
    SchemeRecognised(scheme, rest);
  }

  /** Without the scheme, only the surrounding white space goes. */
  lemma {:induction false} OtherHeaderTrimmed(before: string, header: string, after: string)
    requires AllSpace(before) && AllSpace(after) && Trimmed(header)
    requires !HasPrefix(ToLower(header), Prefix)
    ensures TrimBearer(before + header + after) == header
  {
    PaddingIgnored(before, header, after);
  }

  lemma BearerWord()
    ensures IsBearer("Bearer")
  {
  }

  lemma SampleStrings()
    ensures Trimmed("abc123") && AllSpace([]) && AllSpace(" ")
    ensures AllSpace("  ") && AllSpace("     ") && AllSpace("   ")
  {
  }

  /** The scheme glued to the credentials is still removed: nothing asks
      for a space after "bearer". */
  lemma GluedSchemeRemoved()
    ensures TrimBearer("Bearerabc123") == "abc123"
  {
    BearerWord();
    SampleStrings();
    assert [] + "Bearer" + [] + "abc123" + [] == "Bearerabc123";
    BearerTokenExtracted([], "Bearer", [], "abc123", []);
  }

  /** An empty header gives empty credentials. */
  lemma EmptyHeader()
    ensures TrimBearer("") == ""
  {
    TrimmedHeader("");
  }

  /** The scheme alone gives empty credentials. */
  lemma SchemeOnly()
    ensures TrimBearer("Bearer") == ""
  {
    BearerWord();
    SampleStrings();
    assert [] + "Bearer" + [] == "Bearer";
    SchemeAlone([], "Bearer", []);
  }

  /** So does the scheme followed by a space. */
  lemma SchemeAndSpace()
    ensures TrimBearer("Bearer ") == ""
  {
    BearerWord();
    SampleStrings();
    assert [] + "Bearer" + " " == "Bearer ";
    SchemeAlone([], "Bearer", " ");
  }

  /** Padding around and after the scheme is dropped. */
  lemma PaddedHeader()
    ensures TrimBearer("  Bearer     abc123   ") == "abc123"
  {
    BearerWord();
    SampleStrings();
    PaddedPieces();
    BearerTokenExtracted("  ", "Bearer", "     ", "abc123", "   ");
  }

  lemma PaddedPieces()
    ensures "  " + "Bearer" + "     " + "abc123" + "   " == "  Bearer     abc123   "
  {
  }
}
