/** What the parser of reprs refuses, which integers it keeps, and what becomes of the keys of dictionaries. */
module PyReprRefusals {
  import opened Wrappers
  import opened Utf8
  import opened Decimal
  import opened PyRepr
  import opened PythonRepr
  import opened PyReprRoundTrip

  /** Every accepted value but a number ends with a closing byte, a quote or the last letter of a keyword. */
  lemma LastByte(floats: Floats, s: seq<Byte>, i: nat)
    requires i <= |s| && ParseValue(floats, s, i).Ok?
    ensures var end := ParseValue(floats, s, i).end;
            var j := SkipWs(s, i);
            s[end - 1] == DOT ==>
              j < end && NumberEnd(s, j) == end && !EndsWithDots(WithoutUnderscores(s[j..end]))
  {
    var end := ParseValue(floats, s, i).end;
    var j := SkipWs(s, i);
    if j < |s| && s[j] in {OPEN_BRACKET, OPEN_PAREN, OPEN_BRACE, QUOTE, DOUBLE_QUOTE} {
      assert s[end - 1] in {CLOSE_BRACKET, CLOSE_PAREN, CLOSE_BRACE, QUOTE, DOUBLE_QUOTE};
    } else if j < |s| && StartsNumber(s[j]) {
      assert ParseValue(floats, s, i) == ParseNumber(floats, s, j);
    } else {
      WordEnd(s, j);
    }
  }

  lemma WordEnd(s: seq<Byte>, i: nat)
    requires i <= |s| && ParseWord(s, i).Ok?
    ensures s[ParseWord(s, i).end - 1] == 0x65
  {
    if KeywordAt(s, i, NONE) {
      AtByte(s, i, NONE, 3);
    } else if KeywordAt(s, i, TRUE) {
      AtByte(s, i, TRUE, 3);
    } else {
      AtByte(s, i, FALSE, 4);
    }
  }

  lemma {:induction false} DotsSurvive(head: seq<Byte>)
    ensures EndsWithDots(WithoutUnderscores(head + DOTS))
  {
    if head == [] {
      assert head + DOTS == DOTS;
      NoUnderscores(DOTS);
    } else {
      assert (head + DOTS)[1..] == head[1..] + DOTS;
      DotsSurvive(head[1..]);
    }
  }

  /** A text cut short with a final `...` is never accepted. */
  lemma TruncatedIsRefused(floats: Floats, s: seq<Byte>)
    requires EndsWithDots(s)
    ensures Parse(floats, s).Err?
  {
    if Parse(floats, s).Ok? {
      var start := SkipWs(s, 0);
      var end := ParseValue(floats, s, start).end;
      assert s[|s| - 1] == s[|s| - 3..][2] == DOT;
      assert s[|s| - 2] == s[|s| - 3..][1] == DOT;
      assert s[|s| - 3] == s[|s| - 3..][0] == DOT;
      assert end == |s|;
      LastByte(floats, s, start);
      assert start <= |s| - 3;
      assert s[start..end] == s[start..|s| - 3] + DOTS;
      DotsSurvive(s[start..|s| - 3]);
    }
  }

  /** An integer comes back as itself exactly when it fits 64 bits. */
  lemma IntegersExactlyInRange(floats: Floats, i: int)
    ensures Parse(floats, ShowInt(i)) == Ok(Num(Int(i)), |ShowInt(i)|) <==> IsI64(i)
  {
    hide Parse, ShowInt;
    if IsI64(i) {
      SmallInteger(floats, i);
    } else {
      BigInteger(floats, i);
    }
  }

  lemma SmallInteger(floats: Floats, i: int)
    requires IsI64(i)
    ensures Parse(floats, ShowInt(i)) == Ok(Num(Int(i)), |ShowInt(i)|)
  {
    hide ShowInt, ParseValue, StartsNumber;
    var s := ShowInt(i);
    assert s[0..|s|] == s;
    IntHead(i);
    IntParses(floats, s, 0, i);
  }

  /** At the start of a number, the parser reads a number. */
  lemma ReadsNumber(floats: Floats, s: seq<Byte>)
    requires s != [] && StartsNumber(s[0])
    ensures IsNumberByte(s[0]) && ParseValue(floats, s, 0) == ParseNumber(floats, s, 0)
  {
    hide ParseNumber, ParseArray, ParseDict, ParseString, ParseWord;
  }

  lemma BigInteger(floats: Floats, i: int)
    requires !IsI64(i)
    ensures Parse(floats, ShowInt(i)) != Ok(Num(Int(i)), |ShowInt(i)|)
  {
    hide ShowInt, ParseValue, ParseNumber, StartsNumber, IsNumberByte;
    IntHead(i);
    ReadsNumber(floats, ShowInt(i));
    BigNumber(floats, i);
  }

  lemma IntHead(i: int)
    ensures ShowInt(i) != [] && StartsNumber(ShowInt(i)[0]) && SkipWs(ShowInt(i), 0) == 0
    ensures forall k :: 0 <= k < |ShowInt(i)| ==> ShowInt(i)[k] == MINUS || IsDigit(ShowInt(i)[k])
  {
    assert i >= 0 ==> IsDigit(ShowNat(i)[0]);
  }

  lemma BigNumber(floats: Floats, i: int)
    requires !IsI64(i)
    ensures ShowInt(i) != [] && IsNumberByte(ShowInt(i)[0])
    ensures ParseNumber(floats, ShowInt(i), 0) != Ok(Num(Int(i)), |ShowInt(i)|)
  {
    var s := ShowInt(i);
    IntHead(i);
    ParseShow(i);
    hide ShowInt;
    RunEnds(s, 0, |s|);
    assert s[0..|s|] == s;
    NoUnderscores(s);
  }

  /** Digits of an accepted escape are all hexadecimal exactly when the first of them is not a plus sign. */
  lemma {:induction false} EscapeDigits(text: seq<Byte>)
    requires |text| > 1 && FromStrRadix16(text).Some?
    ensures (forall k :: 0 <= k < |text| ==> HexDigit(text[k]).Some?) <==> text[0] != PLUS
  {
    if text[0] != PLUS {
      HexValueDigits(text);
    }
  }

  lemma {:induction false} HexValueDigits(text: seq<Byte>)
    requires HexValue(text).Some?
    ensures forall k :: 0 <= k < |text| ==> HexDigit(text[k]).Some?
  {
    if text != [] {
      HexValueDigits(text[..|text| - 1]);
    }
  }

  /** The text `'\x+f'`, which Python rejects, is accepted as the one character U+000F. */
  lemma SignedEscapeIsAccepted(floats: Floats)
    ensures Parse(floats, [QUOTE, BACKSLASH, 0x78, PLUS, 0x66, QUOTE]) == Ok(Str([0x0F]), 6)
  {
    var s: seq<Byte> := [QUOTE, BACKSLASH, 0x78, PLUS, 0x66, QUOTE];
    assert s[3..5] == [PLUS, 0x66];
    assert s[3..5][1..] == [0x66];
    assert HexValue([0x66]) == Some(15) by {
      assert [0x66][..0] == [];
    }
    assert HexChar(s, 3, 2) == Ok(0x0F, 5);
    assert ParseString(s, 5, QUOTE, [0x0F]) == Ok([0x0F], 6);
    assert ParseString(s, 1, QUOTE, []) == Ok([0x0F], 6) by {
      assert [] + [0x0F] == [0x0F];
    }
  }

  /** With distinct keys, the object has every entry of the dictionary under its key and nothing else. */
  lemma {:induction false} DictKeepsEntries(entries: seq<PyEntry>, fields: map<Text, Json>, floats: Floats)
    requires forall k :: 0 <= k < |entries| ==> RepresentableEntry(entries[k], floats)
    requires forall j, k :: 0 <= j < k < |entries| ==> EntryKey(entries[j], floats) != EntryKey(entries[k], floats)
    requires forall k :: 0 <= k < |entries| ==> EntryKey(entries[k], floats) !in fields
    ensures var m := WithEntries(fields, entries, floats);
            && m.Keys == fields.Keys + (set k | 0 <= k < |entries| :: EntryKey(entries[k], floats))
            && (forall key :: key in fields ==> m[key] == fields[key])
            && (forall k :: 0 <= k < |entries| ==> m[EntryKey(entries[k], floats)] == ToJson(entries[k].value, floats))
    decreases |entries|
  {
    if entries != [] {
      var rest := entries[1..];
      var fields' := fields[EntryKey(entries[0], floats) := EntryJson(entries[0], floats)];
      DictKeepsEntries(rest, fields', floats);
      var m := WithEntries(fields', rest, floats);
      forall k | 0 <= k < |entries|
        ensures EntryKey(entries[k], floats) in m && m[EntryKey(entries[k], floats)] == ToJson(entries[k].value, floats)
      {
        if k > 0 {
          assert rest[k - 1] == entries[k];
        }
      }
      assert forall k :: 0 <= k < |rest| ==> rest[k] == entries[k + 1];
    }
  }

  /** The keys of the object, in the order of the entries. */
  function Keys(entries: seq<PyEntry>, floats: Floats): (keys: seq<Text>)
    requires forall k :: 0 <= k < |entries| ==> RepresentableEntry(entries[k], floats)
    ensures |keys| == |entries| && forall k :: 0 <= k < |entries| ==> keys[k] == EntryKey(entries[k], floats)
  {
    seq(|entries|, k requires 0 <= k < |entries| => EntryKey(entries[k], floats))
  }

  ghost predicate Distinct(keys: seq<Text>) {
    forall j, k :: 0 <= j < k < |keys| ==> keys[j] != keys[k]
  }

  lemma {:induction false} DistinctExactly(keys: seq<Text>)
    ensures |set x | x in keys| <= |keys|
    ensures |set x | x in keys| == |keys| <==> Distinct(keys)
  {
    if keys != [] {
      var init, last := keys[..|keys| - 1], keys[|keys| - 1];
      DistinctExactly(init);
      var all, before := set x | x in keys, set x | x in init;
      assert keys == init + [last];
      assert all == before + {last};
      if last in before {
        assert all == before;
        var k :| 0 <= k < |init| && init[k] == last;
        assert keys[k] == keys[|keys| - 1];
      }
    }
  }

  lemma {:induction false} KeysOfObject(entries: seq<PyEntry>, fields: map<Text, Json>, floats: Floats)
    requires forall k :: 0 <= k < |entries| ==> RepresentableEntry(entries[k], floats)
    ensures WithEntries(fields, entries, floats).Keys == fields.Keys + (set x | x in Keys(entries, floats))
    decreases |entries|
  {
    hide EntryKey, EntryJson, RepresentableEntry;
    if entries != [] {
      var key := EntryKey(entries[0], floats);
      var fields' := fields[key := EntryJson(entries[0], floats)];
      KeysOfObject(entries[1..], fields', floats);
      assert Keys(entries, floats) == [key] + Keys(entries[1..], floats);
    }
  }

  /** Reading a dictionary back loses no entry exactly if the texts of its keys are distinct. */
  lemma NoEntryIsLostExactly(entries: seq<PyEntry>, floats: Floats, printable: Printable)
    requires forall k :: 0 <= k < |entries| ==> RepresentableEntry(entries[k], floats)
    ensures var r := Parse(floats, Repr(PyDict(entries), printable));
            r.Ok? && r.value.Obj? && (|r.value.fields| == |entries| <==> Distinct(Keys(entries, floats)))
  {
    hide Parse, Repr, RepresentableEntry;
    RoundTrip(PyDict(entries), floats, printable);
    KeysOfObject(entries, map[], floats);
    DistinctExactly(Keys(entries, floats));
    var fields := WithEntries(map[], entries, floats);
    assert fields.Keys == set x | x in Keys(entries, floats);
    assert |fields| == |fields.Keys|;
  }

  /** The keys 1 and '1' of a dictionary become one. */
  lemma NumberKeyMeetsText(floats: Floats, printable: Printable)
    ensures var entries := [PyEntry(PyInt(1), PyNone), PyEntry(PyStr([0x31]), PyNone)];
            && Parse(floats, Repr(PyDict(entries), printable)).Ok?
            && Parse(floats, Repr(PyDict(entries), printable)).value.Obj?
            && |Parse(floats, Repr(PyDict(entries), printable)).value.fields| != 2
  {
    hide Parse, Repr;
    var entries := [PyEntry(PyInt(1), PyNone), PyEntry(PyStr([0x31]), PyNone)];
    NoEntryIsLostExactly(entries, floats, printable);
    assert ShowNat(1) == [0x31];
    assert Keys(entries, floats)[0] == Keys(entries, floats)[1];
  }

  /** A first key that is no string and no number is refused, such as None or a tuple. */
  lemma OtherKeyIsRefused(floats: Floats, printable: Printable, key: PyValue, rest: seq<Byte>)
    requires Representable(key, floats) && !key.PyStr? && !key.PyInt? && !key.PyFloat?
    requires rest != [] && !IsNumberByte(rest[0]) && !IsWordByte(rest[0])
    ensures Parse(floats, [OPEN_BRACE] + Repr(key, printable) + rest) == Err(UnsupportedKey)
  {
    hide ParseValue, Repr, ToJson, At;
    var text := Repr(key, printable);
    var s := [OPEN_BRACE] + text + rest;
    WholeText(s);
    AtSplit3(s, 0, [OPEN_BRACE], text, rest);
    AtByte(s, 1 + |text|, rest, 0);
    ReprHead(key, floats, printable);
    AtByte(s, 1, text, 0);
    ValueParses(floats, s, 1, key, printable);
    NoKey(key, floats);
    KeyRefused(floats, s, ToJson(key, floats), 1 + |text|);
  }

  lemma WholeText(s: seq<Byte>)
    ensures At(s, 0, s)
  {
  }

  lemma NoKey(key: PyValue, floats: Floats)
    requires Representable(key, floats) && !key.PyStr? && !key.PyInt? && !key.PyFloat?
    ensures KeyText(floats, ToJson(key, floats)) == None
  {
  }

  lemma KeyRefused(floats: Floats, s: seq<Byte>, key: Json, end: nat)
    requires |s| > 1 && s[0] == OPEN_BRACE && Opens(s[1])
    requires ParseValue(floats, s, 1) == Ok(key, end) && KeyText(floats, key) == None
    ensures Parse(floats, s) == Err(UnsupportedKey)
  {
    SkipNothing(s, 0);
    SkipNothing(s, 1);
    assert ParseEntry(floats, s, 1) == Err(UnsupportedKey);
    assert ParseDict(floats, s, 1, map[]) == Err(UnsupportedKey);
  }
}
