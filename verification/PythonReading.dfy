/**
 When exactly Python reads an accepted literal to the same value: the forms it rejects, the forms it
 reads differently, and the entries of a dictionary that matter.
 */
module PythonReading {
  import opened Wrappers
  import opened Utf8
  import opened Decimal
  import opened PyRepr
  import opened PyLiteral
  import opened PythonLiteral

  // ----- What Python rejects -----

  /** A misplaced underscore, or an integer with a leading zero. */
  predicate RejectedNumeral(text: seq<Byte>) {
    var plain := WithoutUnderscores(text);
    !WellPlaced(text) || (IsInteger(plain) && LeadingZero(Unsigned(plain)))
  }

  lemma NumeralRejected(floats: Floats, text: seq<Byte>)
    requires ReadsDecimals(floats) && NumeralValue(floats, text).Some?
    ensures PythonNumber(floats, text) == None <==> RejectedNumeral(text)
  {
    hide WithoutUnderscores, IsFloat, WellPlaced, LeadingZero, IntegerValue;
    var plain := WithoutUnderscores(text);
    if !IsInteger(plain) {
      NoInteger(plain);
    }
  }

  lemma NoInteger(text: seq<Byte>)
    requires !IsInteger(text)
    ensures ParseI64(text) == None
  {
  }

  /** A raw line break or NUL, or digits that begin with a plus sign. */
  predicate RejectedPiece(p: Piece) {
    match p
    case Raw(c) => ListedRaw(c)
    case Simple(_) => false
    case Hex(_, digits) => digits != [] && digits[0] == PLUS
  }

  predicate RejectedPieces(pieces: seq<Piece>) {
    pieces != [] && (RejectedPiece(pieces[0]) || RejectedPieces(pieces[1..]))
  }

  lemma RestRejected(pieces: seq<Piece>)
    requires pieces != []
    ensures RejectedPieces(pieces) <==> RejectedPiece(pieces[0]) || RejectedPieces(BehindFirst(pieces))
  {
    var rest := pieces[1..];
    if StartsOctal(rest) {
      assert RejectedPieces(rest) == RejectedPieces(rest[1..]);
      assert pieces[2..] == rest[1..];
      if StartsOctal(rest[1..]) {
        assert RejectedPieces(rest[1..]) == RejectedPieces(rest[1..][1..]);
        assert pieces[3..] == rest[1..][1..];
      }
    }
  }

  lemma PieceRejected(quote: Byte, p: Piece, rest: seq<Piece>)
    requires PieceValue(quote, p).Some?
    ensures PythonPiece(p, rest) == None <==> RejectedPiece(p)
  {
    hide HexValue;
    PieceExactly(quote, p, rest);
  }

  lemma PiecesFrom(quote: Byte, pieces: seq<Piece>, n: nat)
    requires n <= |pieces| && PiecesValue(quote, pieces).Some?
    ensures PiecesValue(quote, pieces[n..]).Some?
    decreases n
  {
    if n > 0 {
      PiecesFrom(quote, pieces[1..], n - 1);
      assert pieces[1..][n - 1..] == pieces[n..];
    } else {
      assert pieces[0..] == pieces;
    }
  }

  lemma {:induction false} TextRejected(quote: Byte, pieces: seq<Piece>)
    requires PiecesValue(quote, pieces).Some?
    ensures PythonText(pieces) == None <==> RejectedPieces(pieces)
    decreases |pieces|
  {
    hide PieceValue, PythonPiece, RejectedPiece, BehindFirst;
    if pieces != [] {
      RestRejected(pieces);
      PieceRejected(quote, pieces[0], pieces[1..]);
      BehindFirstAccepted(quote, pieces);
      TextRejected(quote, BehindFirst(pieces));
    }
  }

  lemma BehindFirstAccepted(quote: Byte, pieces: seq<Piece>)
    requires pieces != [] && PiecesValue(quote, pieces).Some?
    ensures PiecesValue(quote, BehindFirst(pieces)).Some?
  {
    hide PiecesValue;
    PiecesFrom(quote, pieces, 1);
    PiecesFrom(quote, pieces, if pieces[0] == Simple(0x30) then 1 + OctalDigits(pieces[1..]) else 1);
  }

  /** Python rejects the literal, or JSON has no such value. */
  predicate Rejected(l: Literal) {
    match l
    case Word(_) => false
    case Numeral(text) => RejectedNumeral(text)
    case Quoted(_, pieces) => RejectedPieces(pieces)
    case Bracketed(_, items) => RejectedItems(items)
    case Braced(entries) => RejectedEntries(entries)
  }

  predicate RejectedItems(items: Items) {
    match items
    case NoItem(_) => false
    case LastItem(_, lit, _) => Rejected(lit)
    case MoreItems(_, lit, _, rest) => Rejected(lit) || RejectedItems(rest)
  }

  predicate RejectedEntry(e: Entry) {
    e.key.Numeral? || Rejected(e.key) || Rejected(e.lit)
  }

  predicate RejectedEntries(entries: Entries) {
    match entries
    case NoEntry(_) => false
    case LastEntry(entry) => RejectedEntry(entry)
    case MoreEntries(entry, rest) => RejectedEntry(entry) || RejectedEntries(rest)
  }

  lemma {:induction false} RejectedExactly(floats: Floats, l: Literal)
    requires ReadsDecimals(floats) && Value(floats, l).Some?
    ensures PythonValue(floats, l) == None <==> Rejected(l)
    decreases l, 0
  {
    hide PythonNumber, NumeralValue, RejectedNumeral, WordValue, ReadsDecimals, PythonText, PiecesValue, RejectedPieces, Blank;
    match l
    case Word(_) =>
    case Numeral(text) => NumeralRejected(floats, text);
    case Quoted(quote, pieces) => TextRejected(quote, pieces);
    case Bracketed(_, items) => ItemsRejected(floats, items);
    case Braced(entries) => EntriesRejected(floats, entries, map[], map[]);
  }

  lemma {:induction false} ItemsRejected(floats: Floats, items: Items)
    requires ReadsDecimals(floats) && ItemValues(floats, items).Some?
    ensures PythonItems(floats, items) == None <==> RejectedItems(items)
    ensures items.LastItem? ==> (PythonValue(floats, items.lit) == None <==> Rejected(items.lit))
    decreases items, 1
  {
    hide ReadsDecimals, Blank, Value, PythonValue, Rejected;
    match items
    case NoItem(_) =>
    case LastItem(_, lit, _) => RejectedExactly(floats, lit);
    case MoreItems(_, lit, _, rest) =>
      RejectedExactly(floats, lit);
      ItemsRejected(floats, rest);
  }

  /** What Python makes of an entry: nothing, or a key no longer than the parser's and the value it reads. */
  lemma {:induction false} EntryReading(floats: Floats, e: Entry)
    requires ReadsDecimals(floats) && EntryValue(floats, e).Some?
    ensures PythonEntry(floats, e) == None <==> RejectedEntry(e)
    ensures Value(floats, e.lit) == Some(EntryValue(floats, e).value.1)
    ensures PythonEntry(floats, e).Some? ==>
              && PythonValue(floats, e.lit) == Some(PythonEntry(floats, e).value.1)
              && (if Listed(e.key) then |PythonEntry(floats, e).value.0| < |EntryValue(floats, e).value.0|
                  else PythonEntry(floats, e).value.0 == EntryValue(floats, e).value.0)
    decreases e, 0
  {
    hide ReadsDecimals, Blank, Listed, Rejected;
    KeyIsText(floats, e.key);
    KeyReading(floats, e.key);
    RejectedExactly(floats, e.key);
    RejectedExactly(floats, e.lit);
  }

  lemma KeyReading(floats: Floats, key: Literal)
    requires Value(floats, key).Some? && (key.Numeral? || key.Quoted?)
    ensures key.Numeral? && PythonValue(floats, key).Some? ==> PythonValue(floats, key).value.Num?
    ensures key.Quoted? && !Listed(key) ==> PythonValue(floats, key) == Value(floats, key)
    ensures key.Quoted? && Listed(key) && PythonValue(floats, key).Some? ==>
              && PythonValue(floats, key).value.Str? && Value(floats, key).value.Str?
              && |PythonValue(floats, key).value.text| < |Value(floats, key).value.text|
  {
    hide PythonText, PiecesValue, ListedPieces;
    if key.Quoted? {
      TextExactly(key.quote, key.pieces);
    }
  }

  lemma {:induction false} EntriesRejected(floats: Floats, entries: Entries, fields: map<Text, Json>, python: map<Text, Json>)
    requires ReadsDecimals(floats) && EntryValues(floats, entries, fields).Some?
    ensures PythonEntries(floats, entries, python) == None <==> RejectedEntries(entries)
    decreases entries, 1
  {
    hide ReadsDecimals, Blank, EntryValue, PythonEntry, RejectedEntry, Listed, Value, PythonValue;
    match entries
    case NoEntry(_) =>
    case LastEntry(entry) => EntryReading(floats, entry);
    case MoreEntries(entry, rest) =>
      EntryReading(floats, entry);
      if PythonEntry(floats, entry).Some? {
        var (key, v) := EntryValue(floats, entry).value;
        var (key', w) := PythonEntry(floats, entry).value;
        EntriesRejected(floats, rest, fields[key := v], python[key' := w]);
      }
  }

  // ----- What Python reads to another value -----

  /** The texts of the keys. */
  function KeysOf(floats: Floats, entries: Entries): set<Text> {
    match entries
    case NoEntry(_) => {}
    case LastEntry(entry) => KeyOf(floats, entry)
    case MoreEntries(entry, rest) => KeyOf(floats, entry) + KeysOf(floats, rest)
  }

  function KeyOf(floats: Floats, e: Entry): set<Text> {
    match EntryValue(floats, e)
    case Some((key, _)) => {key}
    case None => {}
  }

  /** No dictionary in the tree has two entries with one key text. */
  predicate KeysDistinct(floats: Floats, l: Literal) {
    match l
    case Word(_) => true
    case Numeral(_) => true
    case Quoted(_, _) => true
    case Bracketed(_, items) => ItemKeysDistinct(floats, items)
    case Braced(entries) => EntryKeysDistinct(floats, entries)
  }

  predicate ItemKeysDistinct(floats: Floats, items: Items) {
    match items
    case NoItem(_) => true
    case LastItem(_, lit, _) => KeysDistinct(floats, lit)
    case MoreItems(_, lit, _, rest) => KeysDistinct(floats, lit) && ItemKeysDistinct(floats, rest)
  }

  predicate EntryKeysDistinct(floats: Floats, entries: Entries) {
    match entries
    case NoEntry(_) => true
    case LastEntry(entry) => KeysDistinct(floats, entry.lit)
    case MoreEntries(entry, rest) =>
      KeysDistinct(floats, entry.lit) && EntryKeysDistinct(floats, rest) && KeyOf(floats, entry) !! KeysOf(floats, rest)
  }

  /** A key whose text Python reads differently. */
  predicate ListedKeys(entries: Entries) {
    match entries
    case NoEntry(_) => false
    case LastEntry(entry) => Listed(entry.key)
    case MoreEntries(entry, rest) => Listed(entry.key) || ListedKeys(rest)
  }

  /** No two entries have one key text. */
  predicate Apart(floats: Floats, entries: Entries) {
    match entries
    case NoEntry(_) => true
    case LastEntry(_) => true
    case MoreEntries(entry, rest) => KeyOf(floats, entry) !! KeysOf(floats, rest) && Apart(floats, rest)
  }

  /** No dictionary in the tree repeats a key text and also has a key that is a listed string. */
  predicate KeysClear(floats: Floats, l: Literal) {
    match l
    case Word(_) => true
    case Numeral(_) => true
    case Quoted(_, _) => true
    case Bracketed(_, items) => ItemKeysClear(floats, items)
    case Braced(entries) => (Apart(floats, entries) || !ListedKeys(entries)) && EntryKeysClear(floats, entries)
  }

  predicate ItemKeysClear(floats: Floats, items: Items) {
    match items
    case NoItem(_) => true
    case LastItem(_, lit, _) => KeysClear(floats, lit)
    case MoreItems(_, lit, _, rest) => KeysClear(floats, lit) && ItemKeysClear(floats, rest)
  }

  predicate EntryKeysClear(floats: Floats, entries: Entries) {
    match entries
    case NoEntry(_) => true
    case LastEntry(entry) => KeysClear(floats, entry.lit)
    case MoreEntries(entry, rest) => KeysClear(floats, entry.lit) && EntryKeysClear(floats, rest)
  }

  /**
   A listed form that matters: one that Python rejects, wherever it stands, or one that no later entry
   of the same dictionary with the same key replaces.
   */
  predicate Misread(floats: Floats, l: Literal) {
    match l
    case Word(_) => false
    case Numeral(text) => ListedNumeral(text)
    case Quoted(_, pieces) => ListedPieces(pieces)
    case Bracketed(open, items) => (open == OPEN_PAREN && items.LastItem?) || MisreadItems(floats, items)
    case Braced(entries) => RejectedEntries(entries) || MisreadEntries(floats, entries)
  }

  predicate MisreadItems(floats: Floats, items: Items) {
    match items
    case NoItem(_) => false
    case LastItem(_, lit, _) => Misread(floats, lit)
    case MoreItems(_, lit, _, rest) => Misread(floats, lit) || MisreadItems(floats, rest)
  }

  predicate MisreadEntries(floats: Floats, entries: Entries) {
    match entries
    case NoEntry(_) => false
    case LastEntry(entry) => Listed(entry.key) || Misread(floats, entry.lit)
    case MoreEntries(entry, rest) =>
      (KeyOf(floats, entry) !! KeysOf(floats, rest) && (Listed(entry.key) || Misread(floats, entry.lit)))
      || MisreadEntries(floats, rest)
  }

  /** How deep lists are nested in lists. */
  function Depth(v: Json): nat {
    match v
    case Arr(items) => 1 + MaxDepth(items)
    case _ => 0
  }

  function MaxDepth(items: seq<Json>): nat {
    if items == [] then 0
    else
      var rest := MaxDepth(items[1..]);
      if Depth(items[0]) > rest then Depth(items[0]) else rest
  }

  lemma {:induction false} DepthAtMost(floats: Floats, l: Literal)
    requires Value(floats, l).Some? && PythonValue(floats, l).Some?
    ensures Depth(PythonValue(floats, l).value) <= Depth(Value(floats, l).value)
    decreases l, 0
  {
    hide PythonNumber, NumeralValue, WordValue, PythonText, PiecesValue, Blank;
    match l
    case Word(_) =>
    case Numeral(_) => NumberIsFlat(floats, l.text);
    case Quoted(_, _) =>
    case Bracketed(open, items) =>
      if open == OPEN_PAREN && items.LastItem? {
        DepthAtMost(floats, items.lit);
        DepthOfOne(Value(floats, items.lit).value);
      } else {
        DepthsAtMost(floats, items);
      }
    case Braced(_) =>
  }

  lemma NumberIsFlat(floats: Floats, text: seq<Byte>)
    ensures PythonNumber(floats, text).Some? ==> Depth(PythonNumber(floats, text).value) == 0
  {
  }

  lemma DepthOfOne(v: Json)
    ensures Depth(Arr([v])) == 1 + Depth(v)
  {
    assert [v][1..] == [];
    assert MaxDepth([]) == 0;
  }

  lemma {:induction false} DepthsAtMost(floats: Floats, items: Items)
    requires ItemValues(floats, items).Some? && PythonItems(floats, items).Some?
    ensures MaxDepth(PythonItems(floats, items).value) <= MaxDepth(ItemValues(floats, items).value)
    decreases items, 1
  {
    hide Blank, Value, PythonValue;
    match items
    case NoItem(_) =>
    case LastItem(_, lit, _) =>
      DepthAtMost(floats, lit);
      DepthOfOne(Value(floats, lit).value);
      DepthOfOne(PythonValue(floats, lit).value);
    case MoreItems(_, lit, _, rest) =>
      DepthAtMost(floats, lit);
      DepthsAtMost(floats, rest);
      DepthCons(Value(floats, lit).value, ItemValues(floats, rest).value);
      DepthCons(PythonValue(floats, lit).value, PythonItems(floats, rest).value);
  }

  lemma DepthCons(v: Json, vs: seq<Json>)
    ensures MaxDepth([v] + vs) == if Depth(v) > MaxDepth(vs) then Depth(v) else MaxDepth(vs)
  {
    assert ([v] + vs)[1..] == vs;
  }

  lemma ConsInjective(a: Json, xs: seq<Json>, b: Json, ys: seq<Json>)
    ensures [a] + xs == [b] + ys ==> a == b && xs == ys
  {
    assert ([a] + xs)[0] == a && ([b] + ys)[0] == b;
    assert ([a] + xs)[1..] == xs && ([b] + ys)[1..] == ys;
  }

  ghost function Pick(keys: set<Text>): (key: Text)
    requires keys != {}
    ensures key in keys
  {
    var key :| key in keys;
    key
  }

  /** The lengths of all keys, and their number. */
  ghost function Weight(keys: set<Text>): nat {
    if keys == {} then 0 else |Pick(keys)| + 1 + Weight(keys - {Pick(keys)})
  }

  lemma {:induction false} WeightWithout(keys: set<Text>, key: Text)
    requires key in keys
    ensures Weight(keys) == |key| + 1 + Weight(keys - {key})
    decreases |keys|
  {
    var first := Pick(keys);
    if first != key {
      WeightWithout(keys - {first}, key);
      WeightWithout(keys - {key}, first);
      assert keys - {first} - {key} == keys - {key} - {first};
    }
  }

  lemma WeightWith(keys: set<Text>, key: Text)
    ensures Weight(keys + {key}) == if key in keys then Weight(keys) else Weight(keys) + |key| + 1
  {
    WeightWithout(keys + {key}, key);
    if key in keys {
      assert keys + {key} == keys;
    } else {
      assert keys + {key} - {key} == keys;
    }
  }

  /** Python's keys are fewer or shorter. */
  ghost predicate Behind(fields: map<Text, Json>, python: map<Text, Json>) {
    Weight(python.Keys) < Weight(fields.Keys)
  }

  lemma StaysBehind(fields: map<Text, Json>, python: map<Text, Json>, key: Text, v: Json, key': Text, w: Json)
    requires key !in fields && |key'| <= |key|
    requires Behind(fields, python) || (fields.Keys == python.Keys && |key'| < |key|)
    ensures Behind(fields[key := v], python[key' := w])
  {
    WeightWith(fields.Keys, key);
    WeightWith(python.Keys, key');
    assert fields[key := v].Keys == fields.Keys + {key} && python[key' := w].Keys == python.Keys + {key'};
  }

  /** With a listed key and no key repeated, Python's keys end up fewer or shorter. */
  lemma {:induction false} ListedKeysDiffer(floats: Floats, entries: Entries, fields: map<Text, Json>,
                                            python: map<Text, Json>)
    requires ReadsDecimals(floats) && EntryValues(floats, entries, fields).Some? && Apart(floats, entries)
    requires fields.Keys !! KeysOf(floats, entries)
    requires Behind(fields, python) || (fields.Keys == python.Keys && ListedKeys(entries))
    ensures PythonEntries(floats, entries, python) != EntryValues(floats, entries, fields)
    decreases entries
  {
    hide ReadsDecimals, Blank, EntryValue, PythonEntry, Listed, Value, PythonValue, RejectedEntry, Behind;
    match entries
    case NoEntry(_) => BehindDiffers(fields, python);
    case LastEntry(entry) =>
      EntryReading(floats, entry);
      if PythonEntry(floats, entry).Some? {
        var (key, v) := EntryValue(floats, entry).value;
        var (key', w) := PythonEntry(floats, entry).value;
        StaysBehind(fields, python, key, v, key', w);
        BehindDiffers(fields[key := v], python[key' := w]);
      }
    case MoreEntries(entry, rest) =>
      EntryReading(floats, entry);
      if PythonEntry(floats, entry).Some? {
        var (key, v) := EntryValue(floats, entry).value;
        var (key', w) := PythonEntry(floats, entry).value;
        if Behind(fields, python) || Listed(entry.key) {
          StaysBehind(fields, python, key, v, key', w);
        }
        ListedKeysDiffer(floats, rest, fields[key := v], python[key' := w]);
      }
  }

  lemma BehindDiffers(fields: map<Text, Json>, python: map<Text, Json>)
    requires Behind(fields, python)
    ensures fields != python
  {
  }

  // ----- Exactly which literals are read as Python reads them -----

  lemma {:induction false} MisreadExactly(floats: Floats, l: Literal)
    requires ReadsDecimals(floats) && Value(floats, l).Some? && KeysClear(floats, l)
    ensures PythonValue(floats, l) == Value(floats, l) <==> !Misread(floats, l)
    decreases l, 0
  {
    hide PythonNumber, NumeralValue, ListedNumeral, WordValue, ReadsDecimals, Blank, PythonText, PiecesValue, ListedPieces,
      RejectedEntries, Apart, ListedKeys;
    match l
    case Word(_) =>
    case Numeral(text) => NumeralExactly(floats, text);
    case Quoted(quote, pieces) => TextExactly(quote, pieces);
    case Bracketed(open, items) =>
      if open == OPEN_PAREN && items.LastItem? {
        if PythonValue(floats, items.lit).Some? {
          DepthAtMost(floats, items.lit);
          DepthOfOne(Value(floats, items.lit).value);
        }
      } else {
        MisreadItemsExactly(floats, items);
      }
    case Braced(entries) =>
      EntriesRejected(floats, entries, map[], map[]);
      if !RejectedEntries(entries) {
        if ListedKeys(entries) {
          ListedKeysDiffer(floats, entries, map[], map[]);
          ListedKeyIsMisread(floats, entries);
        } else {
          MisreadEntriesExactly(floats, entries, map[], map[]);
        }
      }
  }

  lemma {:induction false} ListedKeyIsMisread(floats: Floats, entries: Entries)
    requires Apart(floats, entries) && ListedKeys(entries)
    ensures MisreadEntries(floats, entries)
  {
    hide Listed, Misread, KeyOf;
    match entries
    case NoEntry(_) =>
    case LastEntry(_) =>
    case MoreEntries(entry, rest) =>
      if !Listed(entry.key) {
        ListedKeyIsMisread(floats, rest);
      }
  }

  lemma {:induction false} MisreadItemsExactly(floats: Floats, items: Items)
    requires ReadsDecimals(floats) && ItemValues(floats, items).Some? && ItemKeysClear(floats, items)
    ensures PythonItems(floats, items) == ItemValues(floats, items) <==> !MisreadItems(floats, items)
    decreases items, 1
  {
    hide ReadsDecimals, Blank, Value, PythonValue, Misread, KeysClear;
    match items
    case NoItem(_) =>
    case LastItem(_, lit, _) =>
      MisreadExactly(floats, lit);
      if PythonValue(floats, lit).Some? {
        assert [PythonValue(floats, lit).value][0] == PythonValue(floats, lit).value;
        assert [Value(floats, lit).value][0] == Value(floats, lit).value;
      }
    case MoreItems(_, lit, _, rest) =>
      MisreadExactly(floats, lit);
      MisreadItemsExactly(floats, rest);
      if PythonValue(floats, lit).Some? && PythonItems(floats, rest).Some? {
        ConsInjective(PythonValue(floats, lit).value, PythonItems(floats, rest).value,
                      Value(floats, lit).value, ItemValues(floats, rest).value);
      }
  }

  /** The objects agree on every key but those the entries still write. */
  ghost predicate AgreeBut(fields: map<Text, Json>, python: map<Text, Json>, later: set<Text>) {
    fields.Keys == python.Keys && forall key :: key in fields && key !in later ==> fields[key] == python[key]
  }

  /** With the same keys on both sides, the last entry of each key decides. */
  lemma {:induction false} MisreadEntriesExactly(floats: Floats, entries: Entries, fields: map<Text, Json>,
                                                 python: map<Text, Json>)
    requires ReadsDecimals(floats) && EntryValues(floats, entries, fields).Some? && EntryKeysClear(floats, entries)
    requires !RejectedEntries(entries) && !ListedKeys(entries) && fields.Keys == python.Keys
    ensures PythonEntries(floats, entries, python) == EntryValues(floats, entries, fields)
            <==> !MisreadEntries(floats, entries) && AgreeBut(fields, python, KeysOf(floats, entries))
    decreases entries, 1
  {
    hide ReadsDecimals, Blank, EntryValue, PythonEntry, Listed, Value, PythonValue, RejectedEntry, AgreeBut, KeysClear, Misread,
      KeysOf, KeyOf;
    match entries
    case NoEntry(_) => NoKeys(floats, entries, fields, python);
    case LastEntry(entry) =>
      EntryReading(floats, entry);
      MisreadExactly(floats, entry.lit);
      var (key, v) := EntryValue(floats, entry).value;
      var (_, w) := PythonEntry(floats, entry).value;
      LastKey(floats, entries, fields, python, key, v, w);
    case MoreEntries(entry, rest) =>
      EntryReading(floats, entry);
      MisreadExactly(floats, entry.lit);
      var (key, v) := EntryValue(floats, entry).value;
      var (_, w) := PythonEntry(floats, entry).value;
      MisreadEntriesExactly(floats, rest, fields[key := v], python[key := w]);
      OneMoreKey(floats, entry, rest, fields, python, key, v, w);
  }

  lemma NoKeys(floats: Floats, entries: Entries, fields: map<Text, Json>, python: map<Text, Json>)
    requires entries.NoEntry? && fields.Keys == python.Keys
    ensures AgreeBut(fields, python, KeysOf(floats, entries)) <==> python == fields
  {
  }

  lemma LastKey(floats: Floats, entries: Entries, fields: map<Text, Json>, python: map<Text, Json>, key: Text, v: Json, w: Json)
    requires entries.LastEntry? && EntryValue(floats, entries.entry) == Some((key, v)) && fields.Keys == python.Keys
    ensures python[key := w] == fields[key := v] <==> v == w && AgreeBut(fields, python, KeysOf(floats, entries))
  {
    hide EntryValue;
    WriteBoth(fields, python, key, v, w, {});
    assert KeysOf(floats, entries) == {key} + {};
    assert AgreeBut(fields[key := v], python[key := w], {}) <==> fields[key := v] == python[key := w];
  }

  /** After writing a key, the objects agree outside `later` if they did but for the key, and it was written the same. */
  lemma WriteBoth(fields: map<Text, Json>, python: map<Text, Json>, key: Text, v: Json, w: Json, later: set<Text>)
    requires fields.Keys == python.Keys
    ensures fields[key := v].Keys == python[key := w].Keys
    ensures AgreeBut(fields[key := v], python[key := w], later)
            <==> AgreeBut(fields, python, {key} + later) && (key in later || v == w)
  {
    var f, p := fields[key := v], python[key := w];
    if AgreeBut(f, p, later) {
      forall k | k in fields && k !in {key} + later
        ensures fields[k] == python[k]
      {
        assert f[k] == p[k];
      }
      assert key in f;
    }
  }

  lemma OneMoreKey(floats: Floats, entry: Entry, rest: Entries, fields: map<Text, Json>, python: map<Text, Json>,
                   key: Text, v: Json, w: Json)
    requires EntryValue(floats, entry) == Some((key, v)) && fields.Keys == python.Keys
    ensures fields[key := v].Keys == python[key := w].Keys
    ensures KeyOf(floats, entry) !! KeysOf(floats, rest) <==> key !in KeysOf(floats, rest)
    ensures AgreeBut(fields[key := v], python[key := w], KeysOf(floats, rest))
            <==> AgreeBut(fields, python, KeysOf(floats, MoreEntries(entry, rest)))
                 && (key in KeysOf(floats, rest) || v == w)
  {
    hide EntryValue, AgreeBut;
    WriteBoth(fields, python, key, v, w, KeysOf(floats, rest));
  }

  lemma {:induction false} DistinctIsClear(floats: Floats, l: Literal)
    requires Value(floats, l).Some? && KeysDistinct(floats, l)
    ensures KeysClear(floats, l)
    ensures Listed(l) ==> Misread(floats, l)
    decreases l, 0
  {
    hide ListedNumeral, ListedPieces, Blank, ListedKeys;
    match l
    case Bracketed(_, items) => DistinctItems(floats, items);
    case Braced(entries) => DistinctEntries(floats, entries, map[]);
    case _ =>
  }

  lemma {:induction false} DistinctItems(floats: Floats, items: Items)
    requires ItemValues(floats, items).Some? && ItemKeysDistinct(floats, items)
    ensures ItemKeysClear(floats, items)
    ensures ListedItems(items) ==> MisreadItems(floats, items)
    decreases items, 1
  {
    hide Blank, Value, Listed, Misread, KeysClear, KeysDistinct;
    match items
    case NoItem(_) =>
    case LastItem(_, lit, _) => DistinctIsClear(floats, lit);
    case MoreItems(_, lit, _, rest) =>
      DistinctIsClear(floats, lit);
      DistinctItems(floats, rest);
  }

  lemma {:induction false} DistinctEntries(floats: Floats, entries: Entries, fields: map<Text, Json>)
    requires EntryValues(floats, entries, fields).Some? && EntryKeysDistinct(floats, entries)
    ensures Apart(floats, entries) && EntryKeysClear(floats, entries)
    ensures ListedEntries(entries) ==> RejectedEntries(entries) || MisreadEntries(floats, entries)
    decreases entries, 1
  {
    hide Blank, Value, Listed, ListedEntry, Misread, KeysClear, KeysDistinct, KeyOf, KeyText, RejectedEntry;
    match entries
    case NoEntry(_) =>
    case LastEntry(entry) => DistinctEntry(floats, entry);
    case MoreEntries(entry, rest) =>
      DistinctEntry(floats, entry);
      var (key, v) := EntryValue(floats, entry).value;
      DistinctEntries(floats, rest, fields[key := v]);
  }

  lemma {:induction false} DistinctEntry(floats: Floats, e: Entry)
    requires EntryValue(floats, e).Some? && KeysDistinct(floats, e.lit)
    ensures KeysClear(floats, e.lit)
    ensures ListedEntry(e) ==> RejectedEntry(e) || Listed(e.key) || Misread(floats, e.lit)
    decreases e, 0
  {
    hide Blank, Value, Listed, Misread, KeysClear, KeysDistinct, KeyText, Rejected;
    DistinctIsClear(floats, e.lit);
  }

  /**
   Python rejects an accepted literal exactly if it has one of the rejected forms. It reads the literal
   to the same value if it has none of the listed forms, and exactly if none of them matters, unless a
   dictionary both repeats a key and has a listed string as a key. Where no key is repeated, all
   listed forms matter.
   */
  lemma ReadAsPythonExactly(floats: Floats, l: Literal)
    requires ReadsDecimals(floats) && Value(floats, l).Some?
    ensures PythonValue(floats, l) == None <==> Rejected(l)
    ensures !Listed(l) ==> PythonValue(floats, l) == Value(floats, l)
    ensures KeysClear(floats, l) ==> (PythonValue(floats, l) == Value(floats, l) <==> !Misread(floats, l))
    ensures KeysDistinct(floats, l) ==> (PythonValue(floats, l) == Value(floats, l) <==> !Listed(l))
  {
    hide ReadsDecimals, Value, PythonValue, Rejected, Listed, KeysClear, KeysDistinct, Misread;
    RejectedExactly(floats, l);
    if !Listed(l) {
      UnlistedAgrees(floats, l);
    }
    if KeysDistinct(floats, l) {
      DistinctIsClear(floats, l);
    }
    if KeysClear(floats, l) {
      MisreadExactly(floats, l);
    }
  }
}
