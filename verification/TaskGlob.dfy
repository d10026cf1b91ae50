/**
 Task-name globs and the regular expressions they are compiled to. The expression is kept as the
 text sent to the database, read back by the part of the RE2 syntax that such texts use, and given
 the meaning `match()` has: a search for an occurrence anywhere in the name.
 */
module TaskGlob {
  import opened Wrappers

  // ----- Globs -----

  /** The direct meaning of a glob: `*` stands for any run of characters, the rest for itself. */
  predicate GlobMatch(glob: string, name: string)
    decreases |glob|, |name|
  {
    if glob == "" then name == ""
    else if glob[0] == '*' then GlobMatch(glob[1..], name) || (name != "" && GlobMatch(glob, name[1..]))
    else name != "" && name[0] == glob[0] && GlobMatch(glob[1..], name[1..])
  }

  function Concat(parts: seq<string>): string {
    if parts == [] then "" else parts[0] + Concat(parts[1..])
  }

  /** `parts` gives each character of the glob the text it stands for. */
  ghost predicate Fills(glob: string, parts: seq<string>) {
    |parts| == |glob| && forall k :: 0 <= k < |glob| && glob[k] != '*' ==> parts[k] == [glob[k]]
  }

  /** A glob matches a name exactly when its stars can be replaced by texts that give the name. */
  lemma GlobMeaning(glob: string, name: string)
    ensures GlobMatch(glob, name) <==> exists parts :: Fills(glob, parts) && Concat(parts) == name
  {
    if GlobMatch(glob, name) {
      var parts := FillsOf(glob, name);
    }
    forall parts | Fills(glob, parts) && Concat(parts) == name
      ensures GlobMatch(glob, name)
    {
      FilledMatches(glob, parts);
    }
  }

  lemma {:induction false} FillsOf(glob: string, name: string) returns (parts: seq<string>)
    requires GlobMatch(glob, name)
    ensures Fills(glob, parts) && Concat(parts) == name
    decreases |glob|, |name|
  {
    if glob == "" {
      parts := [];
    } else if glob[0] == '*' && !GlobMatch(glob[1..], name) {
      var rest := FillsOf(glob, name[1..]);
      parts := [[name[0]] + rest[0]] + rest[1..];
      assert Concat(parts) == [name[0]] + rest[0] + Concat(rest[1..]);
    } else {
      var first := if glob[0] == '*' then "" else [name[0]];
      var rest := FillsOf(glob[1..], if glob[0] == '*' then name else name[1..]);
      parts := [first] + rest;
      assert parts[1..] == rest;
    }
  }

  lemma {:induction false} FilledMatches(glob: string, parts: seq<string>)
    requires Fills(glob, parts)
    ensures GlobMatch(glob, Concat(parts))
    decreases |glob|
  {
    if glob != "" {
      FilledMatches(glob[1..], parts[1..]);
      var rest := Concat(parts[1..]);
      if glob[0] == '*' {
        StarSkips(glob, parts[0], rest);
      } else {
        assert Concat(parts)[1..] == rest;
      }
    }
  }

  lemma {:induction false} StarSkips(glob: string, head: string, name: string)
    requires glob != "" && glob[0] == '*' && GlobMatch(glob[1..], name)
    ensures GlobMatch(glob, head + name)
    decreases |head|
  {
    if head == "" {
      assert head + name == name;
    } else {
      assert (head + name)[1..] == head[1..] + name;
      StarSkips(glob, head[1..], name);
    }
  }

  // ----- Compilation -----

  predicate IsRegexSpecial(c: char) {
    c in ".+?()[]{}^$|\\"
  }

  function CompileChar(c: char): string {
    if c == '*' then ".*" else if IsRegexSpecial(c) then ['\\', c] else [c]
  }

  function CompileBody(glob: string): string {
    if glob == "" then "" else CompileChar(glob[0]) + CompileBody(glob[1..])
  }

  function Compile(glob: string): string {
    "^" + CompileBody(glob) + "$"
  }

  lemma {:induction false} CompileSnoc(glob: string, c: char)
    ensures CompileBody(glob + [c]) == CompileBody(glob) + CompileChar(c)
  {
    if glob == "" {
      assert glob + [c] == [c];
      assert [c][1..] == "";
    } else {
      assert (glob + [c])[1..] == glob[1..] + [c];
      CompileSnoc(glob[1..], c);
    }
  }

  lemma BodyJoined(body: string, more: string)
    ensures "^" + body + more == "^" + (body + more)
  {
  }

  /** `glob_to_regex`. */
  method GlobToRegex(glob: string) returns (re: string)
    ensures re == Compile(glob)
  {
    re := "^";
    for k := 0 to |glob|
      invariant re == "^" + CompileBody(glob[..k])
    {
      var ch := glob[k];
      CompileSnoc(glob[..k], ch);
      assert glob[..k + 1] == glob[..k] + [ch];
      ghost var before := re;
      if ch == '*' {
        re := re + ".*";
      } else if IsRegexSpecial(ch) {
        re := re + ['\\'];
        re := re + [ch];
        assert re == before + ['\\', ch];
      } else {
        re := re + [ch];
      }
      BodyJoined(CompileBody(glob[..k]), re[|before|..]);
    }
    assert glob[..|glob|] == glob;
    re := re + "$";
  }

  // ----- Regular expressions -----

  datatype Atom = Lit(c: char) | AnyChar
  datatype Item = Begin | End | One(atom: Atom) | Many(atom: Atom)

  /** A backslash makes the character after it literal when that one is no letter or digit. */
  predicate IsPunctuation(c: char) {
    c < 0x80 as char && !('0' <= c <= '9' || 'a' <= c <= 'z' || 'A' <= c <= 'Z')
  }

  /** The characters that stand for something else than themselves where they are not escaped. */
  const METACHARACTERS: set<char> := {'*', '.', '+', '?', '(', ')', '[', ']', '{', '}', '^', '$', '|', '\\'}

  /** The first atom of `text` and how many characters write it; None where this subset ends. */
  function ReadAtom(text: string): Option<(Atom, nat)> {
    if text == "" then None
    else if text[0] == '\\' then
      if |text| > 1 && IsPunctuation(text[1]) then Some((Lit(text[1]), 2)) else None
    else if text[0] == '.' then Some((AnyChar, 1))
    else if text[0] in METACHARACTERS then None
    else Some((Lit(text[0]), 1))
  }

  function ReadRegex(text: string): Option<seq<Item>> {
    if text == "" then Some([])
    else if text[0] == '^' || text[0] == '$' then
      match ReadRegex(text[1..])
      case Some(rest) => Some([if text[0] == '^' then Begin else End] + rest)
      case None => None
    else
      match ReadAtom(text)
      case None => None
      case Some((atom, n)) =>
        var starred := n < |text| && text[n] == '*';
        match ReadRegex(text[if starred then n + 1 else n..])
        case Some(rest) => Some([if starred then Many(atom) else One(atom)] + rest)
        case None => None
  }

  /** What a dot matches: everything, or everything but a line break. */
  predicate Accepts(atom: Atom, c: char, dotNewline: bool) {
    match atom
    case Lit(l) => c == l
    case AnyChar => dotNewline || c != '\n'
  }

  predicate MatchAt(items: seq<Item>, name: string, i: nat, dotNewline: bool)
    requires i <= |name|
    decreases |items|, |name| - i
  {
    if items == [] then true
    else
      match items[0]
      case Begin => i == 0 && MatchAt(items[1..], name, i, dotNewline)
      case End => i == |name| && MatchAt(items[1..], name, i, dotNewline)
      case One(a) => i < |name| && Accepts(a, name[i], dotNewline) && MatchAt(items[1..], name, i + 1, dotNewline)
      case Many(a) =>
        || MatchAt(items[1..], name, i, dotNewline)
        || (i < |name| && Accepts(a, name[i], dotNewline) && MatchAt(items, name, i + 1, dotNewline))
  }

  /** `match(name, regex)`: some occurrence, anywhere. */
  predicate RegexMatch(regex: string, name: string, dotNewline: bool) {
    match ReadRegex(regex)
    case None => false
    case Some(items) => exists i :: 0 <= i <= |name| && MatchAt(items, name, i, dotNewline)
  }

  // ----- Compilation keeps the meaning -----

  function GlobItems(glob: string): seq<Item> {
    if glob == "" then []
    else [if glob[0] == '*' then Many(AnyChar) else One(Lit(glob[0]))] + GlobItems(glob[1..])
  }

  lemma ReadPlain(text: string, atom: Atom, n: nat, rest: string, items: seq<Item>)
    requires text != "" && text[0] != '^' && text[0] != '$' && ReadAtom(text) == Some((atom, n))
    requires n <= |text| && text[n..] == rest && rest != "" && rest[0] != '*'
    requires ReadRegex(rest) == Some(items)
    ensures ReadRegex(text) == Some([One(atom)] + items)
  {
    assert text[n] == rest[0];
  }

  lemma ReadStar(rest: string, items: seq<Item>)
    requires ReadRegex(rest) == Some(items)
    ensures ReadRegex(".*" + rest) == Some([Many(AnyChar)] + items)
  {
    var text := ".*" + rest;
    assert text[0] == '.' && text[1] == '*' && text[2..] == rest;
  }

  lemma ReadDollar()
    ensures ReadRegex("$") == Some([End])
  {
    assert "$"[1..] == "";
    var none: seq<Item> := [];
    assert ReadRegex("") == Some(none);
    assert [End] + none == [End];
  }

  /** The compiled text reads back as one item for each character of the glob, nothing else. */
  lemma {:induction false} CompiledReadsBack(glob: string)
    ensures ReadRegex(CompileBody(glob) + "$") == Some(GlobItems(glob) + [End])
    ensures (CompileBody(glob) + "$")[0] != '*'
  {
    hide ReadRegex;
    var text := CompileBody(glob) + "$";
    if glob == "" {
      assert text == "$";
      ReadDollar();
      assert GlobItems(glob) + [End] == [End];
    } else {
      var c, head, rest := glob[0], CompileChar(glob[0]), CompileBody(glob[1..]) + "$";
      var items := GlobItems(glob[1..]) + [End];
      CompiledReadsBack(glob[1..]);
      assert text == head + rest;
      assert text[|head|..] == rest;
      if c == '*' {
        ReadStar(rest, items);
      } else {
        ReadPlain(text, Lit(c), |head|, rest, items);
      }
      assert GlobItems(glob) + [End] == [if c == '*' then Many(AnyChar) else One(Lit(c))] + items;
    }
  }

  lemma {:induction false} ItemsMatchGlob(glob: string, name: string, i: nat, dotNewline: bool)
    requires i <= |name| && (dotNewline || '\n' !in name)
    ensures MatchAt(GlobItems(glob) + [End], name, i, dotNewline) <==> GlobMatch(glob, name[i..])
    decreases |glob|, |name| - i
  {
    var items := GlobItems(glob) + [End];
    if glob == "" {
      assert items == [End];
      assert items[1..] == [];
    } else {
      assert items[1..] == GlobItems(glob[1..]) + [End];
      ItemsMatchGlob(glob[1..], name, i, dotNewline);
      if i < |name| {
        assert name[i..][1..] == name[i + 1..];
        if glob[0] == '*' {
          ItemsMatchGlob(glob, name, i + 1, dotNewline);
        } else {
          ItemsMatchGlob(glob[1..], name, i + 1, dotNewline);
        }
      }
    }
  }

  /**
   For every glob and name, searching for the compiled expression is matching the glob. The dot of
   the expression must match line breaks, as it does in the database, or the name must have none.
   */
  lemma CompiledMatchesGlob(glob: string, name: string, dotNewline: bool)
    requires dotNewline || '\n' !in name
    ensures RegexMatch(Compile(glob), name, dotNewline) <==> GlobMatch(glob, name)
  {
    var body := CompileBody(glob) + "$";
    var items := GlobItems(glob) + [End];
    assert Compile(glob) == "^" + body;
    assert Compile(glob)[1..] == body;
    CompiledReadsBack(glob);
    var all := [Begin] + items;
    assert ReadRegex(Compile(glob)) == Some(all);
    assert all[1..] == items;
    ItemsMatchGlob(glob, name, 0, dotNewline);
    assert name[0..] == name;
    assert MatchAt(all, name, 0, dotNewline) <==> GlobMatch(glob, name);
  }

  /** Without that mode of the dot, a star would stop at a line break. */
  lemma DotNeedsNewlineMode()
    ensures GlobMatch("*", "\n") && !RegexMatch(Compile("*"), "\n", false)
  {
    CompiledReadsBack("*");
    var body := CompileBody("*") + "$";
    assert Compile("*") == "^" + body;
    assert Compile("*")[1..] == body;
    assert "*"[1..] == "";
    assert GlobItems("") == [];
    assert GlobItems("*") + [End] == [Many(AnyChar), End];
    var all := [Begin, Many(AnyChar), End];
    assert all == [Begin] + [Many(AnyChar), End];
    assert ReadRegex(Compile("*")) == Some(all);
    assert all[1..] == [Many(AnyChar), End] && [Many(AnyChar), End][1..] == [End];
    assert !MatchAt([Many(AnyChar), End], "\n", 0, false);
    assert "\n"[1..] == "";
  }

  // ----- The predicate of an alert query -----

  datatype TaskPredicate = Everything | Matches(regex: string) | Equals(name: string)

  function PredicateOf(pattern: string): TaskPredicate {
    if pattern == "" || pattern == "*" then Everything
    else if '*' in pattern then Matches(Compile(pattern))
    else Equals(pattern)
  }

  predicate Holds(p: TaskPredicate, name: string) {
    match p
    case Everything => true
    case Matches(regex) => RegexMatch(regex, name, true)
    case Equals(n) => name == n
  }

  lemma {:induction false} PlainGlob(glob: string, name: string)
    requires '*' !in glob
    ensures GlobMatch(glob, name) <==> name == glob
  {
    if glob != "" {
      assert glob[0] in glob;
      if name != "" {
        PlainGlob(glob[1..], name[1..]);
        assert name == [name[0]] + name[1..] && glob == [glob[0]] + glob[1..];
      }
    }
  }

  lemma {:induction false} StarMatchesAll(name: string)
    ensures GlobMatch("*", name)
  {
    assert "*"[1..] == "";
    if name != "" {
      StarMatchesAll(name[1..]);
    }
  }

  /** The three forms of the filter are one relation: the empty pattern matches all, any other is a glob. */
  lemma PredicateIsGlob(pattern: string, name: string)
    ensures Holds(PredicateOf(pattern), name) <==> pattern == "" || GlobMatch(pattern, name)
  {
    if pattern == "*" {
      StarMatchesAll(name);
    } else if pattern != "" {
      if '*' in pattern {
        CompiledMatchesGlob(pattern, name, true);
      } else {
        PlainGlob(pattern, name);
      }
    }
  }

  lemma PredicateForms(pattern: string)
    ensures PredicateOf(pattern)
            == if pattern == "" || pattern == "*" then Everything
               else if '*' in pattern then Matches(Compile(pattern))
               else Equals(pattern)
  {
  }

  /** `task_predicate`. */
  method ToTaskPredicate(pattern: string) returns (p: TaskPredicate)
    ensures p == PredicateOf(pattern)
    ensures forall name :: Holds(p, name) <==> pattern == "" || GlobMatch(pattern, name)
  {
    hide Holds, GlobMatch, Compile, PredicateOf;
    forall name
      ensures Holds(PredicateOf(pattern), name) <==> pattern == "" || GlobMatch(pattern, name)
    {
      PredicateIsGlob(pattern, name);
    }
    PredicateForms(pattern);
    if pattern == "" || pattern == "*" {
      return Everything;
    }
    if '*' in pattern {
      var regex := GlobToRegex(pattern);
      return Matches(regex);
    }
    return Equals(pattern);
  }
}
