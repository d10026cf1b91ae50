/** What masking promises: it is idempotent, keeps clean text, and masks what it scans. */
module RedactionProperties {
  import opened Wrappers
  import opened Redaction
  import Utf8

  // ----- Scanning -----

  /** A text up to its first `://`, the authority behind it, and what follows the authority. */
  datatype Scan = Scan(head: string, authority: string, rest: string)

  lemma HeadIsFirst(text: string)
    requires FindScheme(text).Some?
    ensures FirstHead(text[..FindScheme(text).value + 3])
  {
    var i := FindScheme(text).value;
    var head := text[..i + 3];
    assert SchemeAt(head, |head| - 3);
    forall k | SchemeAt(head, k)
      ensures k == |head| - 3
    {
      assert SchemeAt(text, k);
    }
  }

  function ScanOf(text: string): (scan: Scan)
    requires FindScheme(text).Some?
    ensures Scans(text, scan)
    ensures |scan.rest| < |text|
  {
    var i := FindScheme(text).value;
    var tail := text[i + 3..];
    var end := AuthorityEnd(tail);
    assert text == text[..i + 3] + tail[..end] + tail[end..];
    HeadIsFirst(text);
    Scan(text[..i + 3], tail[..end], tail[end..])
  }

  ghost predicate FirstHead(head: string) {
    |head| >= 3 && SchemeAt(head, |head| - 3) && forall k :: SchemeAt(head, k) ==> k == |head| - 3
  }

  ghost predicate Scans(text: string, scan: Scan) {
    && text == scan.head + scan.authority + scan.rest
    && FirstHead(scan.head)
    && StopFree(scan.authority)
    && (scan.rest != "" ==> IsStop(scan.rest[0]))
  }

  lemma FindsHead(head: string, tail: string)
    requires FirstHead(head)
    ensures FindScheme(head + tail) == Some(|head| - 3)
  {
    var s, i := head + tail, |head| - 3;
    assert SchemeAt(s, i);
    forall k | SchemeAt(s, k) && k < i
      ensures false
    {
      assert SchemeAt(head, k);
    }
  }

  lemma AuthorityEnds(authority: string, rest: string)
    requires StopFree(authority) && (rest != "" ==> IsStop(rest[0]))
    ensures AuthorityEnd(authority + rest) == |authority|
  {
    var s := authority + rest;
    var n := AuthorityEnd(s);
    forall k | 0 <= k < n
      ensures !IsStop(s[k])
    {
      assert s[k] in s[..n];
    }
    forall k | 0 <= k < |authority|
      ensures !IsStop(s[k])
    {
      assert s[k] in authority;
    }
    assert rest != "" ==> s[|authority|] == rest[0];
  }

  /** One round of the loop, for any way to see the text as a scan. */
  lemma RedactScan(text: string, scan: Scan)
    requires Scans(text, scan)
    ensures Redact(text) == scan.head + Mask(scan.authority) + Redact(scan.rest)
  {
    var tail := scan.authority + scan.rest;
    assert text == scan.head + tail;
    FindsHead(scan.head, tail);
    AuthorityEnds(scan.authority, scan.rest);
    var i := |scan.head| - 3;
    assert text[..i + 3] == scan.head && text[i + 3..] == tail;
    assert tail[..|scan.authority|] == scan.authority && tail[|scan.authority|..] == scan.rest;
  }

  /** Two scans of one text are the same scan. */
  lemma ScanUnique(text: string, a: Scan, b: Scan)
    requires Scans(text, a) && Scans(text, b)
    ensures a == b
  {
    assert text == a.head + (a.authority + a.rest) && text == b.head + (b.authority + b.rest);
    FindsHead(a.head, a.authority + a.rest);
    FindsHead(b.head, b.authority + b.rest);
    assert a.head == text[..|a.head|] == b.head;
    assert a.authority + a.rest == text[|a.head|..] == b.authority + b.rest;
    AuthorityEnds(a.authority, a.rest);
    AuthorityEnds(b.authority, b.rest);
    assert a.authority == text[|a.head|..][..|a.authority|] == b.authority;
    assert a.rest == text[|a.head|..][|a.authority|..] == b.rest;
  }

  // ----- Masked authorities -----

  /** Without userinfo, or with userinfo that is empty, `***`, or a name followed by `:***`. */
  ghost predicate Masked(authority: string) {
    var at := LastOf(authority, '@');
    at.Some? ==>
      var userinfo := authority[..at.value];
      || userinfo == ""
      || userinfo == "***"
      || exists name :: userinfo == name + ":***" && ':' !in name
  }

  lemma FirstAt(s: string, c: char, k: nat)
    requires k < |s| && s[k] == c && c !in s[..k]
    ensures FirstOf(s, c) == Some(k)
  {
    assert c in s;
    var j := FirstOf(s, c).value;
    forall i | 0 <= i < k
      ensures s[i] != c
    {
      assert s[i] in s[..k];
    }
    forall i | 0 <= i < j
      ensures s[i] != c
    {
      assert s[i] in s[..j];
    }
  }

  lemma LastAt(s: string, c: char, k: nat)
    requires k < |s| && s[k] == c && c !in s[k + 1..]
    ensures LastOf(s, c) == Some(k)
  {
    assert c in s;
    var j := LastOf(s, c).value;
    forall i | k < i < |s|
      ensures s[i] != c
    {
      assert s[i] in s[k + 1..];
    }
    forall i | j < i < |s|
      ensures s[i] != c
    {
      assert s[i] in s[j + 1..];
    }
  }

  /** What Mask makes of an authority with a name and a password. */
  lemma MaskPassword(name: string, password: string, host: string)
    requires ':' !in name && '@' !in host
    ensures Mask(name + ":" + password + "@" + host) == name + ":***@" + host
  {
    hide LastOf, FirstOf;
    var userinfo := name + ":" + password;
    var authority := userinfo + ("@" + host);
    assert name + ":" + password + "@" + host == authority;
    assert authority[|userinfo| + 1..] == host;
    LastAt(authority, '@', |userinfo|);
    FirstAt(userinfo, ':', |name|) by {
      assert userinfo[..|name|] == name;
    }
    assert authority[..|userinfo|] == userinfo && authority[|userinfo|..] == "@" + host;
    assert authority[..|name|] == name;
    assert name + ":***" + ("@" + host) == name + ":***@" + host;
  }

  /** A lone token is a password. */
  lemma MaskToken(token: string, host: string)
    requires token != "" && ':' !in token && '@' !in host
    ensures Mask(token + "@" + host) == "***@" + host
  {
    var authority := token + ("@" + host);
    assert token + "@" + host == authority && authority[|token| + 1..] == host;
    LastAt(authority, '@', |token|);
    assert authority[..|token|] == token && authority[|token|..] == "@" + host;
  }

  /** The parts of an authority with userinfo. */
  lemma Userinfo(authority: string) returns (userinfo: string, host: string)
    requires LastOf(authority, '@').Some?
    ensures authority == userinfo + "@" + host && '@' !in host
    ensures userinfo == authority[..LastOf(authority, '@').value]
  {
    var at := LastOf(authority, '@').value;
    userinfo, host := authority[..at], authority[at + 1..];
  }

  lemma NamePassword(userinfo: string) returns (name: string, password: string)
    requires FirstOf(userinfo, ':').Some?
    ensures userinfo == name + ":" + password && ':' !in name
  {
    var colon := FirstOf(userinfo, ':').value;
    name, password := userinfo[..colon], userinfo[colon + 1..];
  }

  ghost predicate MaskedUserinfo(userinfo: string) {
    userinfo == "" || userinfo == "***" || exists name :: userinfo == name + ":***" && ':' !in name
  }

  lemma MaskedParts(userinfo: string, host: string)
    requires '@' !in host
    ensures Masked(userinfo + "@" + host) <==> MaskedUserinfo(userinfo)
  {
    var authority := userinfo + ("@" + host);
    assert userinfo + "@" + host == authority && authority[|userinfo| + 1..] == host;
    LastAt(authority, '@', |userinfo|);
    assert authority[..|userinfo|] == userinfo;
  }

  /** Userinfo with a name and a password is masked exactly if the password is three stars. */
  lemma MaskedPassword(name: string, password: string)
    requires ':' !in name
    ensures MaskedUserinfo(name + ":" + password) <==> password == "***"
  {
    hide FirstOf;
    var userinfo := name + ":" + password;
    assert userinfo[|name|] == ':';
    assert ':' in userinfo;
    if password == "***" {
      assert userinfo == name + ":***";
    }
    if n :| userinfo == n + ":***" && ':' !in n {
      assert n + ":***" == n + ":" + "***";
      SameParts(name, password, n, "***");
    }
  }

  /** A colon-free name and what follows its colon are known from the whole. */
  lemma SameParts(name: string, password: string, n: string, p: string)
    requires ':' !in name && ':' !in n && name + ":" + password == n + ":" + p
    ensures name == n && password == p
  {
    hide FirstOf;
    var userinfo := name + ":" + password;
    assert userinfo[..|name|] == name && userinfo[|name| + 1..] == password;
    assert userinfo[..|n|] == n && userinfo[|n| + 1..] == p;
    FirstAt(userinfo, ':', |name|);
    FirstAt(userinfo, ':', |n|);
  }

  lemma MaskMasksPassword(name: string, password: string, host: string)
    requires ':' !in name && '@' !in host
    ensures var a := name + ":" + password + "@" + host;
            Masked(Mask(a)) && (Mask(a) == a <==> Masked(a))
  {
    hide Mask, Masked, MaskedUserinfo, LastOf, FirstOf;
    MaskPassword(name, password, host);
    MaskedParts(name + ":" + password, host);
    MaskedPassword(name, password);
    MaskedParts(name + ":" + "***", host);
    MaskedPassword(name, "***");
    assert name + ":" + "***" + "@" + host == name + ":***@" + host;
    var a, m := name + ":" + password + "@" + host, name + ":***@" + host;
    if m == a {
      assert a[|name| + 1..] == password + "@" + host && m[|name| + 1..] == "***" + "@" + host;
      assert |password| == 3;
      assert password == (password + "@" + host)[..3] == "***";
    }
  }

  lemma MaskMasksToken(token: string, host: string)
    requires token != "" && ':' !in token && '@' !in host
    ensures var a := token + "@" + host;
            Masked(Mask(a)) && (Mask(a) == a <==> Masked(a))
  {
    hide Mask, Masked, LastOf, FirstOf;
    MaskToken(token, host);
    MaskedParts(token, host);
    MaskedParts("***", host);
    assert forall n: string :: ':' in n + ":***";
    assert "***" + "@" + host == "***@" + host;
    var a, m := token + "@" + host, "***@" + host;
    if m == a {
      assert |token| == 3;
      assert token == a[..3] == m[..3] == "***";
    }
  }

  /** Masking an authority makes it masked, and leaves it alone exactly if it was. */
  lemma MaskMasks(authority: string)
    ensures Masked(Mask(authority))
    ensures Mask(authority) == authority <==> Masked(authority)
  {
    hide LastOf, FirstOf;
    if LastOf(authority, '@').Some? {
      var userinfo, host := Userinfo(authority);
      if FirstOf(userinfo, ':').Some? {
        var name, password := NamePassword(userinfo);
        MaskMasksPassword(name, password, host);
      } else if userinfo != "" {
        MaskMasksToken(userinfo, host);
      } else {
        MaskMasksNothing(authority);
      }
    }
  }

  lemma MaskMasksNothing(authority: string)
    requires LastOf(authority, '@') == Some(0)
    ensures Mask(authority) == authority && Masked(authority)
  {
    assert authority[..0] == "";
    assert "" + authority[0..] == authority;
  }

  /** Masking brings no stop character in. */
  lemma MaskStopFree(authority: string)
    requires StopFree(authority)
    ensures StopFree(Mask(authority))
  {
    var mask := Mask(authority);
    forall c | c in mask
      ensures !IsStop(c)
    {
      assert c in authority || c in ":***";
    }
  }

  // ----- Idempotence and clean text -----

  /** Redaction keeps the first character. */
  lemma SameFront(text: string)
    ensures Redact(text) == "" <==> text == ""
    ensures text != "" ==> Redact(text)[0] == text[0]
  {
    if FindScheme(text).Some? {
      var scan := ScanOf(text);
      RedactScan(text, scan);
    }
  }

  /** The result scans like the text. */
  lemma RedactedScan(text: string, scan: Scan)
    requires Scans(text, scan)
    ensures Scans(Redact(text), Scan(scan.head, Mask(scan.authority), Redact(scan.rest)))
  {
    RedactScan(text, scan);
    MaskStopFree(scan.authority);
    SameFront(scan.rest);
  }

  lemma {:induction false} RedactIsIdempotent(text: string)
    ensures Redact(Redact(text)) == Redact(text)
    decreases |text|
  {
    hide Mask, Masked;
    if FindScheme(text).Some? {
      var scan := ScanOf(text);
      var again := Scan(scan.head, Mask(scan.authority), Redact(scan.rest));
      RedactScan(text, scan);
      RedactedScan(text, scan);
      RedactScan(Redact(text), again);
      MaskMasks(scan.authority);
      MaskMasks(Mask(scan.authority));
      RedactIsIdempotent(scan.rest);
    }
  }

  /** The authorities the loop looks at, in order. */
  ghost function Scanned(text: string): seq<string>
    decreases |text|
  {
    if FindScheme(text).None? then [] else
    var scan := ScanOf(text);
    [scan.authority] + Scanned(scan.rest)
  }

  ghost predicate AllMasked(authorities: seq<string>) {
    forall a :: a in authorities ==> Masked(a)
  }

  lemma NoneToMask()
    ensures AllMasked([])
  {
  }

  lemma AllMaskedCons(a: string, rest: seq<string>)
    ensures AllMasked([a] + rest) <==> Masked(a) && AllMasked(rest)
  {
    assert a in [a] + rest;
    assert forall b :: b in [a] + rest <==> b == a || b in rest;
  }

  /** A text comes back unchanged exactly if every authority the loop looks at is masked already. */
  lemma {:induction false} UnchangedExactlyIfMasked(text: string)
    ensures Redact(text) == text <==> AllMasked(Scanned(text))
    decreases |text|
  {
    hide Mask, Masked, AllMasked;
    if FindScheme(text).None? {
      NoneToMask();
    } else {
      var scan := ScanOf(text);
      RedactScan(text, scan);
      RedactedScan(text, scan);
      MaskMasks(scan.authority);
      AllMaskedCons(scan.authority, Scanned(scan.rest));
      UnchangedExactlyIfMasked(scan.rest);
      if Redact(text) == text {
        ScanUnique(text, scan, Scan(scan.head, Mask(scan.authority), Redact(scan.rest)));
      }
    }
  }

  // ----- Every authority of the result -----

  /** Every `://` in the text has a masked authority. */
  ghost predicate Clean(text: string) {
    forall k :: SchemeAt(text, k) ==> Masked(Authority(text[k + 3..]))
  }

  /** The scanned authority takes the `:` of another `://`, so the loop never looks behind that one. */
  ghost function Hides(scan: Scan): (hides: bool)
    ensures hides ==> |scan.rest| >= 2 && scan.rest[0] == '/' && scan.rest[1] == '/'
  {
    && scan.authority != "" && scan.authority[|scan.authority| - 1] == ':'
    && |scan.rest| >= 2 && scan.rest[0] == '/' && scan.rest[1] == '/'
  }

  /** The authorities the loop passes over. */
  ghost function Hidden(text: string): seq<string>
    decreases |text|
  {
    if FindScheme(text).None? then [] else
    var scan := ScanOf(text);
    (if Hides(scan) then [Authority(scan.rest[2..])] else []) + Hidden(scan.rest)
  }

  lemma SchemePlaces(text: string, scan: Scan, k: int)
    requires Scans(text, scan)
    ensures var n := |scan.head| + |scan.authority|;
            SchemeAt(text, k) <==> k == |scan.head| - 3 || (Hides(scan) && k == n - 1) || SchemeAt(scan.rest, k - n)
  {
    var h, n := |scan.head|, |scan.head| + |scan.authority|;
    assert forall j :: 0 <= j < h ==> text[j] == scan.head[j];
    assert forall j :: h <= j < n ==> text[j] == scan.authority[j - h];
    assert forall j :: n <= j < |text| ==> text[j] == scan.rest[j - n];
    forall j | h <= j < n
      ensures text[j] != '/'
    {
      assert scan.authority[j - h] in scan.authority;
    }
    if k <= h - 3 {
      assert SchemeAt(text, k) <==> SchemeAt(scan.head, k);
    }
  }

  lemma CleanScan(text: string, scan: Scan)
    requires Scans(text, scan)
    ensures Clean(text)
            <==> Masked(scan.authority) && (Hides(scan) ==> Masked(Authority(scan.rest[2..]))) && Clean(scan.rest)
  {
    hide Masked, AuthorityEnd;
    var h, n := |scan.head|, |scan.head| + |scan.authority|;
    assert Authority(text[h..]) == scan.authority by {
      assert text[h..] == scan.authority + scan.rest;
      AuthorityEnds(scan.authority, scan.rest);
    }
    assert Hides(scan) ==> text[n + 2..] == scan.rest[2..];
    forall k
      ensures SchemeAt(text, k)
              <==> k == h - 3 || (Hides(scan) && k == n - 1) || SchemeAt(scan.rest, k - n)
    {
      SchemePlaces(text, scan, k);
    }
    forall k | SchemeAt(scan.rest, k)
      ensures SchemeAt(text, k + n) && text[k + n + 3..] == scan.rest[k + 3..]
    {
      assert SchemeAt(scan.rest, k + n - n);
    }
    assert SchemeAt(text, h - 3);
    assert Hides(scan) ==> SchemeAt(text, n - 1);
  }

  /** The authorities of a text are the scanned ones and the hidden ones. */
  lemma {:induction false} CleanExactly(text: string)
    ensures Clean(text) <==> AllMasked(Scanned(text)) && AllMasked(Hidden(text))
    decreases |text|
  {
    hide Masked, AllMasked, Authority, Hides;
    NoneToMask();
    if FindScheme(text).Some? {
      var scan := ScanOf(text);
      CleanExactly(scan.rest);
      CleanScan(text, scan);
      AllMaskedCons(scan.authority, Scanned(scan.rest));
      if Hides(scan) {
        AllMaskedCons(Authority(scan.rest[2..]), Hidden(scan.rest));
      } else {
        assert [] + Hidden(scan.rest) == Hidden(scan.rest);
      }
    }
  }

  /** What follows a stop character does not matter. */
  lemma AuthorityOfPrefix(prefix: string, rest: string)
    requires !StopFree(prefix)
    ensures Authority(prefix + rest) == Authority(prefix)
  {
    hide IsStop;
    var n := AuthorityEnd(prefix);
    assert prefix[..|prefix|] == prefix;
    assert prefix + rest == prefix[..n] + (prefix + rest)[n..];
    AuthorityEnds(prefix[..n], (prefix + rest)[n..]);
    assert (prefix + rest)[..n] == prefix[..n];
  }

  lemma HeadBehindSlashes(head: string, tail: string)
    requires FirstHead(head) && |head + tail| >= 2 && (head + tail)[0] == '/' && (head + tail)[1] == '/'
    ensures |head| >= 5 && head[0] == '/' && head[1] == '/'
    ensures (head + tail)[2..] == head[2..] + tail && !StopFree(head[2..])
  {
    assert head[|head| - 3] == ':';
    assert |head| >= 5 by {
      assert (head + tail)[|head| - 3] == ':';
    }
    assert head[2..][|head| - 4] == '/' && IsStop('/');
  }

  /** The authority at the front ends before any `://`, so redaction keeps it. */
  lemma SameAuthority(text: string)
    requires |text| >= 2 && text[0] == '/' && text[1] == '/'
    ensures var out := Redact(text);
            && |out| >= 2 && out[0] == '/' && out[1] == '/'
            && Authority(out[2..]) == Authority(text[2..])
  {
    hide Mask, Authority, IsStop, StopFree, SchemeAt, Redact, FirstHead;
    if FindScheme(text).Some? {
      var scan := ScanOf(text);
      RedactScan(text, scan);
      var head, before, after := scan.head, scan.authority + scan.rest, Mask(scan.authority) + Redact(scan.rest);
      assert text == head + before && Redact(text) == head + after;
      HeadBehindSlashes(head, before);
      assert (head + after)[..2] == head[..2];
      HeadBehindSlashes(head, after);
      AuthorityOfPrefix(head[2..], before);
      AuthorityOfPrefix(head[2..], after);
    } else {
      NothingToRedact(text);
    }
  }

  lemma MaskKeepsLast(authority: string)
    requires authority != ""
    ensures Mask(authority) != "" && Mask(authority)[|Mask(authority)| - 1] == authority[|authority| - 1]
  {
  }

  lemma HiddenScan(text: string, scan: Scan)
    requires Scans(text, scan)
    ensures Hidden(text) == (if Hides(scan) then [Authority(scan.rest[2..])] else []) + Hidden(scan.rest)
  {
    hide Authority, Hides;
    assert text == scan.head + (scan.authority + scan.rest);
    FindsHead(scan.head, scan.authority + scan.rest);
    ScanUnique(text, scan, ScanOf(text));
  }

  lemma {:induction false} SameHidden(text: string)
    ensures Hidden(Redact(text)) == Hidden(text)
    decreases |text|
  {
    hide Mask, Masked, Authority, Hides, Hidden, Redact, Scans;
    if FindScheme(text).Some? {
      var scan := ScanOf(text);
      var again := Scan(scan.head, Mask(scan.authority), Redact(scan.rest));
      RedactedScan(text, scan);
      HiddenScan(text, scan);
      HiddenScan(Redact(text), again);
      SameHidesOf(text, scan);
      if Hides(scan) {
        SameAuthority(scan.rest);
      }
      SameHidden(scan.rest);
    } else {
      NothingToRedact(text);
    }
  }

  lemma NothingToRedact(text: string)
    requires FindScheme(text).None?
    ensures Redact(text) == text
  {
  }

  lemma SameHidesOf(text: string, scan: Scan)
    requires Scans(text, scan)
    ensures Hides(scan) <==> Hides(Scan(scan.head, Mask(scan.authority), Redact(scan.rest)))
  {
    hide Mask, Redact, Hides;
    SameHides(scan);
  }

  lemma SameHides(scan: Scan)
    requires scan.rest != "" ==> IsStop(scan.rest[0])
    ensures Hides(scan) <==> Hides(Scan(scan.head, Mask(scan.authority), Redact(scan.rest)))
  {
    hide Mask, IsStop;
    if scan.authority != "" {
      MaskKeepsLast(scan.authority);
    }
    SameFront(scan.rest);
    if scan.rest != "" && scan.rest[0] == '/' {
      SameSecond(scan.rest);
    }
    assert Mask("") == "" by { MaskNothing(); }
  }

  lemma MaskNothing()
    ensures Mask("") == ""
  {
  }

  /** A text that begins with a slash keeps its second character as well. */
  lemma SameSecond(text: string)
    requires text != "" && text[0] == '/'
    ensures |text| >= 2 <==> |Redact(text)| >= 2
    ensures |text| >= 2 ==> Redact(text)[1] == text[1]
  {
    if FindScheme(text).Some? {
      var scan := ScanOf(text);
      RedactScan(text, scan);
    }
  }

  /**
   Every authority of the result is masked exactly if the authorities that the loop passes over were
   masked in the text.
   */
  lemma ResultIsCleanExactly(text: string)
    ensures Clean(Redact(text)) <==> AllMasked(Hidden(text))
  {
    CleanExactly(Redact(text));
    RedactIsIdempotent(text);
    UnchangedExactlyIfMasked(Redact(text));
    SameHidden(text);
  }

  // ----- Passwords -----

  lemma StopFreeParts(a: string, b: string)
    ensures StopFree(a + b) <==> StopFree(a) && StopFree(b)
  {
    assert forall c :: c in a ==> c in a + b;
    assert forall c :: c in b ==> c in a + b;
  }

  /** A text that ends in a stop character other than a slash, such as a blank, is redacted on its own. */
  lemma {:induction false} RedactsApart(before: string, text: string)
    requires before != "" && IsStop(before[|before| - 1]) && before[|before| - 1] != '/'
    ensures Redact(before + text) == Redact(before) + Redact(text)
    decreases |before|
  {
    hide Mask, Redact, IsStop, FirstHead, StopFree, SchemeAt;
    if FindScheme(before).Some? {
      var scan := ScanOf(before);
      LastIsRest(before, scan);
      var whole := Scan(scan.head, scan.authority, scan.rest + text);
      assert before + text == scan.head + scan.authority + (scan.rest + text);
      RedactScan(before, scan);
      RedactScan(before + text, whole);
      RedactsApart(scan.rest, text);
      Joined(scan.head + Mask(scan.authority), Redact(scan.rest), Redact(text));
    } else {
      NothingToRedact(before);
      RedactsBehind(before, text);
    }
  }

  lemma LastIsRest(before: string, scan: Scan)
    requires Scans(before, scan)
    requires before != "" && IsStop(before[|before| - 1]) && before[|before| - 1] != '/'
    ensures scan.rest != "" && scan.rest[|scan.rest| - 1] == before[|before| - 1]
  {
    assert !IsStop(':') && scan.head[|scan.head| - 1] == '/';
    assert scan.authority != "" ==> !IsStop(scan.authority[|scan.authority| - 1]);
    assert before == scan.head + (scan.authority + scan.rest);
  }

  lemma RedactsBehind(before: string, text: string)
    requires FindScheme(before).None?
    requires before != "" && IsStop(before[|before| - 1]) && before[|before| - 1] != '/'
    ensures Redact(before + text) == before + Redact(text)
  {
    hide Mask, IsStop, Redact, SchemeAt, AuthorityEnd, FirstHead, StopFree;
    if FindScheme(text).Some? {
      var scan := ScanOf(text);
      var whole := Scan(before + scan.head, scan.authority, scan.rest);
      Appended(before, scan.head, scan.authority, scan.rest);
      HeadBehind(before, scan.head);
      RedactScan(text, scan);
      RedactScan(before + text, whole);
      Appended(before, scan.head, Mask(scan.authority), Redact(scan.rest));
    } else {
      NoSchemeBehind(before, text);
      NothingToRedact(text);
      NothingToRedact(before + text);
    }
  }

  lemma NoSchemeBehind(before: string, text: string)
    requires FindScheme(before).None? && FindScheme(text).None?
    requires before != "" && IsStop(before[|before| - 1]) && before[|before| - 1] != '/'
    ensures FindScheme(before + text).None?
  {
    hide IsStop, SchemeAt;
    forall k
      ensures !SchemeAt(before + text, k)
    {
      SchemeApart(before, text, k);
    }
  }

  lemma HeadBehind(before: string, head: string)
    requires FindScheme(before).None? && FirstHead(head)
    requires before != "" && IsStop(before[|before| - 1]) && before[|before| - 1] != '/'
    ensures FirstHead(before + head)
  {
    hide IsStop, SchemeAt;
    forall k
      ensures SchemeAt(before + head, k) <==> SchemeAt(head, k - |before|)
    {
      SchemeApart(before, head, k);
    }
  }

  lemma SchemeInFront(before: string, text: string, k: int)
    requires FindScheme(before).None? && 0 <= k < |before|
    requires before[|before| - 1] != ':' && before[|before| - 1] != '/'
    ensures !SchemeAt(before + text, k)
  {
    hide FindScheme, IsStop;
    var n, all := |before|, before + text;
    assert !SchemeAt(before, k);
    assert forall j :: 0 <= j < n ==> all[j] == before[j];
  }

  lemma SchemeApart(before: string, text: string, k: int)
    requires FindScheme(before).None?
    requires before != "" && IsStop(before[|before| - 1]) && before[|before| - 1] != '/'
    ensures SchemeAt(before + text, k) <==> SchemeAt(text, k - |before|)
  {
    assert !IsStop(':');
    hide IsStop, FindScheme;
    var n, all := |before|, before + text;
    if 0 <= k < n {
      SchemeInFront(before, text, k);
    } else {
      assert forall j :: 0 <= j < |text| ==> all[n + j] == text[j];
    }
  }

  /**
   In a connection string with a name and a password, the output is the same for every password
   without stop characters, wherever the string stands in a longer text.
   */
  lemma PasswordIsMasked(scheme: string, name: string, password: string, host: string, rest: string)
    requires FirstHead(scheme + "://") && ':' !in name && '@' !in host
    requires StopFree(name) && StopFree(password) && StopFree(host) && (rest != "" ==> IsStop(rest[0]))
    ensures Redact(scheme + "://" + name + ":" + password + "@" + host + rest)
            == scheme + "://" + name + ":***@" + host + Redact(rest)
  {
    hide Mask, Redact, IsStop;
    var authority := name + ":" + password + "@" + host;
    StopFreeUserinfo(name, password, host);
    var text := scheme + "://" + name + ":" + password + "@" + host + rest;
    assert text == scheme + "://" + authority + rest;
    RedactScan(text, Scan(scheme + "://", authority, rest));
    MaskPassword(name, password, host);
    assert scheme + "://" + (name + ":***@" + host) + Redact(rest)
        == scheme + "://" + name + ":***@" + host + Redact(rest);
  }

  lemma StopFreeUserinfo(name: string, password: string, host: string)
    requires StopFree(name) && StopFree(host)
    ensures StopFree(name + ":" + password + "@" + host) <==> StopFree(password)
  {
    StopFreeParts(name + ":" + password + "@", host);
    StopFreeParts(name + ":" + password, "@");
    StopFreeParts(name + ":", password);
    StopFreeParts(name, ":");
  }

  /** A lone token is masked as a whole. */
  lemma TokenIsMasked(scheme: string, token: string, host: string, rest: string)
    requires FirstHead(scheme + "://") && token != "" && ':' !in token && '@' !in host
    requires StopFree(token) && StopFree(host) && (rest != "" ==> IsStop(rest[0]))
    ensures Redact(scheme + "://" + token + "@" + host + rest) == scheme + "://***@" + host + Redact(rest)
  {
    hide Mask, Redact, IsStop;
    var authority := token + "@" + host;
    StopFreeParts(token + "@", host);
    StopFreeParts(token, "@");
    assert !IsStop('@') by { AtIsNoStop(); }
    var text := scheme + "://" + token + "@" + host + rest;
    assert text == scheme + "://" + authority + rest;
    RedactScan(text, Scan(scheme + "://", authority, rest));
    MaskToken(token, host);
    assert scheme + "://" + ("***@" + host) + Redact(rest) == scheme + "://***@" + host + Redact(rest);
  }

  lemma AtIsNoStop()
    ensures !IsStop('@')
  {
  }

  /** Slash, quotes, closing parenthesis and comma. */
  const STOPS: set<char> := {'/', '\'', '"', ')', ','}

  lemma StopsExactly(s: string)
    ensures StopFree(s) <==> forall c :: c in s ==> c !in STOPS && !Utf8.IsWhitespace(c as int)
  {
  }

  /**
   The password of a connection string comes out as three stars exactly if it holds no stop
   character: no slash, quote, closing parenthesis, comma or white space.
   */
  lemma PasswordIsMaskedExactly(scheme: string, name: string, password: string, host: string)
    requires FirstHead(scheme + "://") && ':' !in name && '@' !in host && StopFree(name) && StopFree(host)
    ensures Redact(scheme + "://" + name + ":" + password + "@" + host) == scheme + "://" + name + ":***@" + host
            <==> forall c :: c in password ==> c !in STOPS && !Utf8.IsWhitespace(c as int)
  {
    hide Mask, Redact, IsStop, StopFree, FirstHead;
    StopsExactly(password);
    var authority, masked := name + ":" + password + "@" + host, name + ":***@" + host;
    var text := scheme + "://" + name + ":" + password + "@" + host;
    if StopFree(password) {
      assert text + "" == text;
      NothingToRedact("");
      PasswordIsMasked(scheme, name, password, host, "");
    } else {
      StopFreeUserinfo(name, password, host);
      StopFreeUserinfo(name, "***", host);
      assert name + ":" + "***" + "@" + host == masked;
      StarsAreStopFree();
      assert text == scheme + "://" + authority;
      StopStays(scheme + "://", authority);
      assert (scheme + "://" + name + ":***@" + host)[|scheme + "://"|..] == masked;
    }
  }

  lemma StarsAreStopFree()
    ensures StopFree("***")
  {
  }

  /** A stop character behind a scheme stays in the text. */
  lemma StopStays(head: string, tail: string)
    requires FirstHead(head) && !StopFree(tail)
    ensures |Redact(head + tail)| >= |head| && !StopFree(Redact(head + tail)[|head|..])
  {
    hide Mask, IsStop, Redact, FirstHead, SchemeAt;
    var end := AuthorityEnd(tail);
    assert tail[..|tail|] == tail;
    var scan := Scan(head, tail[..end], tail[end..]);
    assert head + tail == head + scan.authority + scan.rest;
    RedactScan(head + tail, scan);
    SameFront(scan.rest);
    StopBehind(head, Mask(scan.authority), Redact(scan.rest));
  }

  lemma StopBehind(head: string, mask: string, rest: string)
    requires rest != "" && IsStop(rest[0])
    ensures !StopFree((head + mask + rest)[|head|..])
  {
    hide IsStop;
    assert (head + mask + rest)[|head|..] == mask + rest;
    assert rest[0] in rest;
    StopFreeParts(mask, rest);
  }

  /** A password with a comma stays readable. */
  lemma CommaHidesPassword()
    ensures Redact("amqp://u:a,b@h") == "amqp://u:a,b@h"
  {
    hide Redact, Mask, FindScheme, FirstHead, StopFree, LastOf;
    var scan := Scan("amqp://", "u:a", ",b@h");
    assert "amqp://u:a,b@h" == scan.head + scan.authority + scan.rest;
    AmqpHead();
    RedactScan("amqp://u:a,b@h", scan);
    assert forall k :: !SchemeAt(",b@h", k);
    NothingToRedact(",b@h");
  }

  lemma AmqpHead()
    ensures FirstHead("amqp://") && StopFree("u:a") && Mask("u:a") == "u:a"
  {
    hide LastOf;
    assert '@' !in "u:a";
  }

  /** A `://` whose colon ends another authority is never looked at: the token behind it stays. */
  lemma HiddenTokenStays()
    ensures Redact("a://b://u@h") == "a://b://u@h" && !Clean("a://b://u@h")
  {
    hide Masked, Redact, Mask, FindScheme, LastOf, FirstHead, StopFree;
    var text := "a://b://u@h";
    var scan := Scan("a://", "b:", "//u@h");
    assert text == scan.head + scan.authority + scan.rest;
    HeadAndColon();
    RedactScan(text, scan);
    assert forall k :: !SchemeAt("//u@h", k);
    NothingToRedact("//u@h");
    assert text[8..] == "u@h" + "";
    AuthorityEnds("u@h", "");
    TokenIsUnmasked();
    assert SchemeAt(text, 5);
  }

  lemma HeadAndColon()
    ensures FirstHead("a://") && StopFree("b:") && StopFree("u@h") && Mask("b:") == "b:"
  {
    hide LastOf;
    assert '@' !in "b:";
  }

  lemma TokenIsUnmasked()
    ensures !Masked("u@h")
  {
    MaskToken("u", "h");
    assert "u" + "@" + "h" == "u@h" && ("***@" + "h")[0] != "u@h"[0];
    MaskMasks("u@h");
  }
}
