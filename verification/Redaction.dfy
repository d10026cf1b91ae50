/**
 Masking the passwords of connection strings in log text and error messages
 (crates/common/src/redact.rs). A text is a sequence of Unicode scalar values.
 */
module Redaction {
  import opened Wrappers
  import Utf8

  // ----- Searching -----

  /** The characters that end an authority. */
  predicate IsStop(c: char) {
    c == '/' || Utf8.IsWhitespace(c as int) || c == '\'' || c == '"' || c == ')' || c == ','
  }

  predicate StopFree(s: string) {
    forall c :: c in s ==> !IsStop(c)
  }

  /** `://` stands at position k of s. */
  predicate SchemeAt(s: string, k: int) {
    0 <= k && k + 3 <= |s| && s[k] == ':' && s[k + 1] == '/' && s[k + 2] == '/'
  }

  function FindScheme(s: string): (at: Option<nat>)
    ensures at.Some? ==> SchemeAt(s, at.value)
    ensures forall k :: SchemeAt(s, k) ==> at.Some? && at.value <= k
    decreases |s|
  {
    if |s| < 3 then None
    else if SchemeAt(s, 0) then Some(0)
    else
      var r := FindScheme(s[1..]);
      assert forall k :: SchemeAt(s, k) ==> SchemeAt(s[1..], k - 1);
      if r.Some? then Some(r.value + 1) else None
  }

  function FirstOf(s: string, c: char): (at: Option<nat>)
    ensures at.Some? ==> at.value < |s| && s[at.value] == c && c !in s[..at.value]
    ensures at.None? <==> c !in s
    decreases |s|
  {
    if s == "" then None
    else if s[0] == c then Some(0)
    else
      var r := FirstOf(s[1..], c);
      assert s == [s[0]] + s[1..];
      if r.Some? then Some(r.value + 1) else None
  }

  function LastOf(s: string, c: char): (at: Option<nat>)
    ensures at.Some? ==> at.value < |s| && s[at.value] == c && c !in s[at.value + 1..]
    ensures at.None? <==> c !in s
    decreases |s|
  {
    if s == "" then None
    else if s[|s| - 1] == c then Some(|s| - 1)
    else
      assert s == s[..|s| - 1] + [s[|s| - 1]];
      LastOf(s[..|s| - 1], c)
  }

  /** Where the authority at the front of s ends: at its first stop character. */
  function AuthorityEnd(s: string): (n: nat)
    ensures n <= |s| && StopFree(s[..n])
    ensures n < |s| ==> IsStop(s[n])
    decreases |s|
  {
    if s == "" || IsStop(s[0]) then 0
    else
      var n := AuthorityEnd(s[1..]);
      assert s[..n + 1] == [s[0]] + s[1..][..n];
      n + 1
  }

  function Authority(s: string): string {
    s[..AuthorityEnd(s)]
  }

  // ----- Masking -----

  function Mask(authority: string): string {
    match LastOf(authority, '@')
    case None => authority
    case Some(at) =>
      match FirstOf(authority[..at], ':')
      case Some(colon) => authority[..colon] + ":***" + authority[at..]
      case None => (if at > 0 then "***" else "") + authority[at..]
  }

  function Redact(text: string): string
    decreases |text|
  {
    match FindScheme(text)
    case None => text
    case Some(i) =>
      var tail := text[i + 3..];
      var end := AuthorityEnd(tail);
      text[..i + 3] + Mask(tail[..end]) + Redact(tail[end..])
  }

  /** The rewriting loop. */
  method RedactUrlCredentials(text: string) returns (out: string)
    ensures out == Redact(text)
  {
    hide Mask;
    out := "";
    var rest := text;
    assert out + Redact(rest) == Redact(text);
    var scheme := FindScheme(rest);
    while scheme.Some?
      invariant scheme == FindScheme(rest)
      invariant out + Redact(rest) == Redact(text)
      decreases |rest|
    {
      ghost var before := out;
      var head, tail := rest[..scheme.value + 3], rest[scheme.value + 3..];
      out := out + head;
      var end := AuthorityEnd(tail);
      out := PushMasked(out, tail[..end]);
      rest := tail[end..];
      Appended(before, head, Mask(tail[..end]), Redact(rest));
      scheme := FindScheme(rest);
    }
    out := out + rest;
  }

  /** The body of the loop that writes the authority. */
  method PushMasked(out: string, authority: string) returns (longer: string)
    ensures longer == out + Mask(authority)
  {
    hide LastOf, FirstOf;
    longer := out;
    var at := LastOf(authority, '@');
    if at.Some? {
      var userinfo := authority[..at.value];
      var colon := FirstOf(userinfo, ':');
      if colon.Some? {
        longer := longer + userinfo[..colon.value];
        longer := longer + ":***";
        assert userinfo[..colon.value] == authority[..colon.value];
        Appended(out, userinfo[..colon.value], ":***", authority[at.value..]);
      } else if userinfo != "" {
        longer := longer + "***";
        Joined(out, "***", authority[at.value..]);
      }
      longer := longer + authority[at.value..];
    } else {
      longer := longer + authority;
    }
  }

  lemma Appended(before: string, head: string, mask: string, rest: string)
    ensures before + (head + mask + rest) == before + head + mask + rest
  {
  }

  lemma Joined(a: string, b: string, c: string)
    ensures a + (b + c) == a + b + c
  {
  }
}
