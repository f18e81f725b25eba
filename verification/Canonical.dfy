/** The canonical JSON printer behind every request hash (relayer/src/v2-hash.ts). */
module Canonical {
  import opened Wrappers
  import opened JsText

  // ---------------------------------------------------------------- values

  /** A JSON value as JavaScript holds it: object members keep their insertion order, and a
      finite number is the numeral that ECMAScript prints for it. */
  datatype Json =
    | Null
    | Bool(truth: bool)
    | Num(numeral: Text)
    | Str(text: Text)
    | Arr(items: seq<Json>)
    | Obj(fields: seq<Field>)

  datatype Field = Field(key: Text, val: Json)

  /** What a JSON value means once the order of object members is forgotten. */
  datatype Value =
    | VNull
    | VBool(truth: bool)
    | VNum(numeral: Text)
    | VStr(text: Text)
    | VArr(items: seq<Value>)
    | VObj(members: map<Text, Value>)

  predicate NumeralUnit(u: CodeUnit)
  {
    48 <= u <= 57 || u == 43 || u == 45 || u == 46 || u == 101
  }

  predicate IsNumeral(t: Text)
  {
    t != [] && forall i | 0 <= i < |t| :: NumeralUnit(t[i])
  }

  predicate DistinctKeys(fields: seq<Field>)
  {
    forall i, j | 0 <= i < j < |fields| :: fields[i].key != fields[j].key
  }

  /** What JavaScript guarantees of any JSON value: keys of one object are distinct. */
  predicate WellFormed(v: Json)
  {
    match v
    case Null => true
    case Bool(_) => true
    case Num(n) => IsNumeral(n)
    case Str(_) => true
    case Arr(items) => forall i | 0 <= i < |items| :: WellFormed(items[i])
    case Obj(fields) => DistinctKeys(fields) && forall i | 0 <= i < |fields| :: WellFormed(fields[i].val)
  }

  function Meaning(v: Json): Value
  {
    match v
    case Null => VNull
    case Bool(b) => VBool(b)
    case Num(n) => VNum(n)
    case Str(s) => VStr(s)
    case Arr(items) => VArr(seq(|items|, i requires 0 <= i < |items| => Meaning(items[i])))
    case Obj(fields) => VObj(Members(fields))
  }

  function Members(fields: seq<Field>): map<Text, Value>
  {
    if fields == [] then map[] else Members(fields[1..])[fields[0].key := Meaning(fields[0].val)]
  }

  // --------------------------------------------------------------- quoting

  const QUOTE: CodeUnit := 34
  const COMMA: CodeUnit := 44
  const COLON: CodeUnit := 58
  const LBRACKET: CodeUnit := 91
  const BACKSLASH: CodeUnit := 92
  const RBRACKET: CodeUnit := 93
  const LBRACE: CodeUnit := 123
  const RBRACE: CodeUnit := 125
  const LETTER_U: CodeUnit := 117

  function HexUnit(d: int): CodeUnit
    requires 0 <= d < 16
  {
    (if d < 10 then 48 + d else 87 + d) as CodeUnit
  }

  function HexValue(u: CodeUnit): int
  {
    if 48 <= u <= 57 then u as int - 48 else if 97 <= u <= 102 then u as int - 87 else 0
  }

  predicate HighSurrogate(u: CodeUnit) { 0xD800 <= u <= 0xDBFF }

  predicate LowSurrogate(u: CodeUnit) { 0xDC00 <= u <= 0xDFFF }

  function HexEscape(u: CodeUnit): (t: Text)
    ensures |t| == 6
  {
    var n := u as int;
    [BACKSLASH, LETTER_U, HexUnit(n / 4096), HexUnit(n / 256 % 16), HexUnit(n / 16 % 16), HexUnit(n % 16)]
  }

  /** The code units with a two-character escape, and the letter that follows the backslash. */
  function ShortEscape(u: CodeUnit): Option<CodeUnit>
  {
    if u == QUOTE then Some(QUOTE)
    else if u == BACKSLASH then Some(BACKSLASH)
    else if u == 8 then Some(98)
    else if u == 9 then Some(116)
    else if u == 10 then Some(110)
    else if u == 12 then Some(102)
    else if u == 13 then Some(114)
    else None
  }

  function EscapeUnit(u: CodeUnit): Text
  {
    if ShortEscape(u).Some? then [BACKSLASH, ShortEscape(u).value]
    else if u < 32 || HighSurrogate(u) || LowSurrogate(u) then HexEscape(u)
    else [u]
  }

  /** The characters `JSON.stringify` writes between the quotes: surrogate pairs pass through, lone
      surrogates and control characters are escaped. */
  function Escaped(s: Text): Text
  {
    if s == [] then []
    else if |s| >= 2 && HighSurrogate(s[0]) && LowSurrogate(s[1]) then s[..2] + Escaped(s[2..])
    else EscapeUnit(s[0]) + Escaped(s[1..])
  }

  function Quote(s: Text): Text { [QUOTE] + Escaped(s) + [QUOTE] }

  function Unescape(u: CodeUnit): CodeUnit
  {
    if u == 98 then 8 else if u == 116 then 9 else if u == 110 then 10
    else if u == 102 then 12 else if u == 114 then 13 else u
  }

  predicate HexAhead(t: Text) { |t| >= 6 && t[0] == BACKSLASH && t[1] == LETTER_U }

  /** How many characters of `t` spell its first string unit. */
  function HeadWidth(t: Text): (n: nat)
    requires t != []
    ensures 1 <= n <= |t|
  {
    if HexAhead(t) then 6 else if t[0] == BACKSLASH && |t| >= 2 then 2 else 1
  }

  function HeadUnit(t: Text): CodeUnit
    requires t != []
  {
    if HexAhead(t) then
      var n := HexValue(t[2]) * 4096 + HexValue(t[3]) * 256 + HexValue(t[4]) * 16 + HexValue(t[5]);
      if 0 <= n < 0x1_0000 then n as CodeUnit else 0
    else if t[0] == BACKSLASH && |t| >= 2 then Unescape(t[1])
    else t[0]
  }

  /** Reads string characters up to the closing quote: the string read, and what follows it. */
  function ReadString(t: Text): (Text, Text)
    decreases |t|
  {
    if t == [] then ([], [])
    else if t[0] == QUOTE then ([], t[1..])
    else
      var (s, rest) := ReadString(t[HeadWidth(t)..]);
      ([HeadUnit(t)] + s, rest)
  }

  lemma HexRoundTrip(u: CodeUnit)
    ensures var t := HexEscape(u);
            HexValue(t[2]) * 4096 + HexValue(t[3]) * 256 + HexValue(t[4]) * 16 + HexValue(t[5]) == u as int
  {
    var n := u as int;
    assert n / 256 == n / 4096 * 16 + n / 256 % 16;
    assert n / 16 == n / 256 * 16 + n / 16 % 16;
  }

  lemma EscapeHead(u: CodeUnit, tail: Text)
    ensures var t := EscapeUnit(u) + tail;
            t[0] != QUOTE && HeadWidth(t) == |EscapeUnit(u)| && HeadUnit(t) == u && t[HeadWidth(t)..] == tail
  {
    var t := EscapeUnit(u) + tail;
    assert t[|EscapeUnit(u)|..] == tail;
    assert t[0] == EscapeUnit(u)[0];
    if ShortEscape(u).Some? {
      assert t[1] == ShortEscape(u).value;
    } else if |EscapeUnit(u)| == 6 {
      HexRoundTrip(u);
      assert t[..6] == HexEscape(u);
      assert t[1] == LETTER_U;
    }
  }

  /** `x` spells the string `s`: read before any closing quote it gives `s`, and nothing past the quote. */
  predicate Spells(x: Text, s: Text, rest: Text)
  {
    ReadString(x + [QUOTE] + rest) == (s, rest)
  }

  lemma SpellsNothing(rest: Text)
    ensures Spells([], [], rest)
  {
    assert [] + [QUOTE] + rest == [QUOTE] + rest;
  }

  lemma SpellsEscape(u: CodeUnit, x: Text, s: Text, rest: Text)
    requires Spells(x, s, rest)
    ensures Spells(EscapeUnit(u) + x, [u] + s, rest)
  {
    EscapeHead(u, x + [QUOTE] + rest);
    assert EscapeUnit(u) + x + [QUOTE] + rest == EscapeUnit(u) + (x + [QUOTE] + rest);
  }

  lemma SpellsPlain(u: CodeUnit, x: Text, s: Text, rest: Text)
    requires Spells(x, s, rest) && u != QUOTE && u != BACKSLASH
    ensures Spells([u] + x, [u] + s, rest)
  {
    var t := [u] + x + [QUOTE] + rest;
    assert t == [u] + (x + [QUOTE] + rest);
    assert t[0] == u && t[1..] == x + [QUOTE] + rest;
  }

  lemma SpellsPair(u: CodeUnit, v: CodeUnit, x: Text, s: Text, rest: Text)
    requires Spells(x, s, rest) && HighSurrogate(u) && LowSurrogate(v)
    ensures Spells([u] + ([v] + x), [u] + ([v] + s), rest)
  {
    SpellsPlain(v, x, s, rest);
    SpellsPlain(u, [v] + x, [v] + s, rest);
  }

  lemma TwoInFront(u: CodeUnit, v: CodeUnit, x: Text)
    ensures [u, v] + x == [u] + ([v] + x)
  {
  }

  lemma PairSplits(s: Text)
    requires |s| >= 2 && HighSurrogate(s[0]) && LowSurrogate(s[1])
    ensures s == [s[0]] + ([s[1]] + s[2..]) && Escaped(s) == [s[0]] + ([s[1]] + Escaped(s[2..]))
  {
    TwoInFront(s[0], s[1], Escaped(s[2..]));
    TwoInFront(s[0], s[1], s[2..]);
    assert s[..2] == [s[0], s[1]];
    assert s == s[..2] + s[2..];
  }

  /** A string literal is self-delimiting: reading it back gives the string and the exact rest. */
  lemma {:induction false} ReadQuoted(s: Text, rest: Text)
    ensures Spells(Escaped(s), s, rest)
  {
    if s == [] {
      SpellsNothing(rest);
    } else if |s| >= 2 && HighSurrogate(s[0]) && LowSurrogate(s[1]) {
      ReadQuoted(s[2..], rest);
      SpellsPair(s[0], s[1], Escaped(s[2..]), s[2..], rest);
      PairSplits(s);
    } else {
      ReadQuoted(s[1..], rest);
      SpellsEscape(s[0], Escaped(s[1..]), s[1..], rest);
      assert s == [s[0]] + s[1..];
    }
  }

  lemma SameSpelling(x: Text, s: Text, r: Text, x': Text, s': Text, r': Text)
    requires Spells(x, s, r) && Spells(x', s', r')
    requires [QUOTE] + x + [QUOTE] + r == [QUOTE] + x' + [QUOTE] + r'
    ensures s == s' && r == r'
  {
    assert ([QUOTE] + x + [QUOTE] + r)[1..] == x + [QUOTE] + r;
    assert ([QUOTE] + x' + [QUOTE] + r')[1..] == x' + [QUOTE] + r';
  }

  lemma QuoteReadable(s: Text, s': Text, r: Text, r': Text)
    requires Quote(s) + r == Quote(s') + r'
    ensures s == s' && r == r'
  {
    ReadQuoted(s, r);
    ReadQuoted(s', r');
    SameSpelling(Escaped(s), s, r, Escaped(s'), s', r');
  }

  // --------------------------------------------------------------- printer

  /** An object member after its value has been printed. */
  datatype Entry = Entry(key: Text, text: Text)

  function Insert(e: Entry, es: seq<Entry>): seq<Entry>
  {
    if es == [] then [e]
    else if Before(es[0].key, e.key) then [es[0]] + Insert(e, es[1..])
    else [e] + es
  }

  function Sort(es: seq<Entry>): seq<Entry>
  {
    if es == [] then [] else Insert(es[0], Sort(es[1..]))
  }

  function Join(parts: seq<Text>): Text
  {
    if parts == [] then [] else if |parts| == 1 then parts[0] else parts[0] + [COMMA] + Join(parts[1..])
  }

  function Member(e: Entry): Text { Quote(e.key) + [COLON] + e.text }

  function MemberTexts(es: seq<Entry>): seq<Text>
  {
    seq(|es|, i requires 0 <= i < |es| => Member(es[i]))
  }

  const NULL_TEXT: Text := [110, 117, 108, 108]
  const TRUE_TEXT: Text := [116, 114, 117, 101]
  const FALSE_TEXT: Text := [102, 97, 108, 115, 101]

  /** `stableJson`. */
  function Print(v: Json): Text
  {
    match v
    case Null => NULL_TEXT
    case Bool(b) => if b then TRUE_TEXT else FALSE_TEXT
    case Num(n) => n
    case Str(s) => Quote(s)
    case Arr(items) => [LBRACKET] + Join(Printed(items)) + [RBRACKET]
    case Obj(fields) => [LBRACE] + Join(MemberTexts(Sort(Entries(fields)))) + [RBRACE]
  }

  function Printed(items: seq<Json>): seq<Text>
  {
    seq(|items|, i requires 0 <= i < |items| => Print(items[i]))
  }

  function Entries(fields: seq<Field>): seq<Entry>
  {
    seq(|fields|, i requires 0 <= i < |fields| => Entry(fields[i].key, Print(fields[i].val)))
  }

  // --------------------------------------------------------------- sorting

  predicate Ascending(es: seq<Entry>)
  {
    forall i, j | 0 <= i < j < |es| :: Before(es[i].key, es[j].key)
  }

  predicate KeysDiffer(es: seq<Entry>)
  {
    forall i, j | 0 <= i < j < |es| :: es[i].key != es[j].key
  }

  lemma {:induction false} InsertSorts(e: Entry, es: seq<Entry>)
    requires Ascending(es) && forall x | x in es :: x.key != e.key
    ensures Ascending(Insert(e, es))
    ensures forall x :: x in Insert(e, es) <==> x == e || x in es
  {
    if es == [] {
    } else if Before(es[0].key, e.key) {
      InsertSorts(e, es[1..]);
      var tail := Insert(e, es[1..]);
      forall x | x in tail ensures Before(es[0].key, x.key) {
        if x != e { var k :| 0 <= k < |es[1..]| && es[1..][k] == x; assert es[1 + k] == x; }
      }
      assert Insert(e, es) == [es[0]] + tail;
      assert es == [es[0]] + es[1..];
    } else {
      forall x | x in es ensures Before(e.key, x.key) {
        BeforeTotal(es[0].key, e.key);
        if x != es[0] {
          var k :| 0 <= k < |es| && es[k] == x;
          BeforeTransitive(e.key, es[0].key, x.key);
        }
      }
    }
  }

  lemma {:induction false} SortSorts(es: seq<Entry>)
    requires KeysDiffer(es)
    ensures Ascending(Sort(es))
    ensures forall x :: x in Sort(es) <==> x in es
  {
    if es != [] {
      SortSorts(es[1..]);
      forall x | x in es[1..] ensures x.key != es[0].key {
        var k :| 0 <= k < |es[1..]| && es[1..][k] == x;
        assert es[1 + k] == x;
      }
      InsertSorts(es[0], Sort(es[1..]));
      assert es == [es[0]] + es[1..];
    }
  }

  /** A set of entries has only one ascending arrangement. */
  lemma {:induction false} AscendingUnique(xs: seq<Entry>, ys: seq<Entry>)
    requires Ascending(xs) && Ascending(ys)
    requires forall e :: e in xs <==> e in ys
    ensures xs == ys
  {
    assert (xs != [] ==> xs[0] in ys) && (ys != [] ==> ys[0] in xs);
    if xs != [] {
      var i :| 0 <= i < |ys| && ys[i] == xs[0];
      var j :| 0 <= j < |xs| && xs[j] == ys[0];
      if i > 0 {
        assert Before(ys[0].key, xs[0].key);
        if j > 0 { BeforeTransitive(xs[0].key, ys[0].key, xs[0].key); }
        BeforeIrreflexive(xs[0].key);
      }
      assert xs[0] == ys[0];
      forall e ensures e in xs[1..] <==> e in ys[1..] {
        BeforeIrreflexive(xs[0].key);
        assert forall k | 0 <= k < |xs[1..]| :: xs[1..][k] == xs[k + 1];
        assert forall k | 0 <= k < |ys[1..]| :: ys[1..][k] == ys[k + 1];
        assert e in xs <==> e == xs[0] || e in xs[1..] by { assert xs == [xs[0]] + xs[1..]; }
        assert e in ys <==> e == ys[0] || e in ys[1..] by { assert ys == [ys[0]] + ys[1..]; }
      }
      AscendingUnique(xs[1..], ys[1..]);
      assert xs == [xs[0]] + xs[1..] && ys == [ys[0]] + ys[1..];
    }
  }

  // ------------------------------------------------- meaning of the members

  lemma {:induction false} MembersAt(fields: seq<Field>)
    requires DistinctKeys(fields)
    ensures forall k :: k in Members(fields) <==> exists i :: 0 <= i < |fields| && fields[i].key == k
    ensures forall i | 0 <= i < |fields| ::
              fields[i].key in Members(fields) && Members(fields)[fields[i].key] == Meaning(fields[i].val)
  {
    if fields != [] {
      var tail := fields[1..];
      MembersAt(tail);
      forall k ensures k in Members(fields) <==> exists i :: 0 <= i < |fields| && fields[i].key == k {
        if k in Members(tail) {
          var i :| 0 <= i < |tail| && tail[i].key == k;
          assert fields[i + 1].key == k;
        } else if k in Members(fields) {
          assert fields[0].key == k;
        }
        if i :| 0 <= i < |fields| && fields[i].key == k {
          if i > 0 { assert tail[i - 1].key == k; }
        }
      }
      forall i | 0 <= i < |fields|
        ensures fields[i].key in Members(fields) && Members(fields)[fields[i].key] == Meaning(fields[i].val)
      {
        if i > 0 { assert tail[i - 1] == fields[i]; }
      }
    }
  }

  predicate PrintedFrom(e: Entry, fields: seq<Field>)
  {
    exists i :: 0 <= i < |fields| && e == Entry(fields[i].key, Print(fields[i].val))
  }

  /** The sorted entries are exactly the printed fields, under distinct ascending keys. */
  lemma SortedEntries(fields: seq<Field>)
    requires DistinctKeys(fields)
    ensures Ascending(Sort(Entries(fields)))
    ensures forall e :: e in Sort(Entries(fields)) <==> PrintedFrom(e, fields)
  {
    var es := Entries(fields);
    assert KeysDiffer(es);
    SortSorts(es);
    forall e ensures e in es <==> PrintedFrom(e, fields) {
      if PrintedFrom(e, fields) {
        var i :| 0 <= i < |fields| && e == Entry(fields[i].key, Print(fields[i].val));
        assert es[i] == e;
      }
    }
  }

  // ------------------------------------------------------ unique readability

  /** A text after which a numeral cannot continue. */
  predicate Stops(r: Text) { r == [] || !NumeralUnit(r[0]) }

  /** What the first character of a printed value can be. */
  predicate Opens(u: CodeUnit, v: Json)
  {
    match v
    case Null => u == 110
    case Bool(b) => u == if b then 116 else 102
    case Num(_) => NumeralUnit(u)
    case Str(_) => u == QUOTE
    case Arr(_) => u == LBRACKET
    case Obj(_) => u == LBRACE
  }

  lemma PrintOpens(v: Json)
    requires WellFormed(v)
    ensures Print(v) != [] && Opens(Print(v)[0], v)
  {
  }

  /** `i` is where the numeral at the head of `w` ends. */
  predicate NumeralEnds(w: Text, i: nat)
  {
    i <= |w| && (forall k | 0 <= k < i :: NumeralUnit(w[k])) && (i == |w| || !NumeralUnit(w[i]))
  }

  lemma NumeralReadable(n: Text, n': Text, r: Text, r': Text)
    requires IsNumeral(n) && IsNumeral(n') && Stops(r) && Stops(r')
    requires n + r == n' + r'
    ensures n == n' && r == r'
  {
    var w := n + r;
    assert NumeralEnds(w, |n|) && NumeralEnds(w, |n'|);
    assert w[..|n|] == n && w[..|n'|] == n' && w[|n|..] == r && w[|n'|..] == r';
  }

  lemma SamePrefix(p: Text, r: Text, r': Text)
    requires p + r == p + r'
    ensures r == r'
  {
    assert (p + r)[|p|..] == r && (p + r')[|p|..] == r';
  }

  /** What follows the first part of a joined list that is closed by `close`. */
  function AfterFirst(parts: seq<Text>, close: CodeUnit, r: Text): Text
    requires parts != []
  {
    if |parts| == 1 then [close] + r else [COMMA] + (Join(parts[1..]) + [close] + r)
  }

  lemma JoinSplits(parts: seq<Text>, close: CodeUnit, r: Text)
    requires parts != []
    ensures Join(parts) + [close] + r == parts[0] + AfterFirst(parts, close, r)
  {
  }

  /** Two joined lists whose tails agree either both end or both go on. */
  lemma TailsAgree(ps: seq<Text>, qs: seq<Text>, close: CodeUnit, r: Text, r': Text)
    requires ps != [] && qs != [] && close != COMMA
    requires AfterFirst(ps, close, r) == AfterFirst(qs, close, r')
    ensures |ps| == 1 <==> |qs| == 1
    ensures |ps| == 1 ==> r == r'
    ensures |ps| > 1 ==> Join(ps[1..]) + [close] + r == Join(qs[1..]) + [close] + r'
  {
    assert AfterFirst(ps, close, r)[0] == AfterFirst(qs, close, r')[0];
    if |ps| == 1 {
      SamePrefix([close], r, r');
    } else {
      SamePrefix([COMMA], Join(ps[1..]) + [close] + r, Join(qs[1..]) + [close] + r');
    }
  }

  /** A printed value is self-delimiting and determines the meaning of what was printed. */
  lemma {:induction false} Readable(a: Json, b: Json, r: Text, r': Text)
    requires WellFormed(a) && WellFormed(b) && Stops(r) && Stops(r')
    requires Print(a) + r == Print(b) + r'
    ensures Meaning(a) == Meaning(b) && Print(a) == Print(b) && r == r'
    decreases a
  {
    PrintOpens(a);
    PrintOpens(b);
    assert (Print(a) + r)[0] == Print(a)[0] && (Print(b) + r')[0] == Print(b)[0];
    match a {
      case Null => SamePrefix(Print(a), r, r');
      case Bool(_) => SamePrefix(Print(a), r, r');
      case Num(n) => NumeralReadable(n, b.numeral, r, r');
      case Str(s) => QuoteReadable(s, b.text, r, r');
      case Arr(items) =>
        Unwrap(LBRACKET, RBRACKET, Join(Printed(items)), Join(Printed(b.items)), r, r');
        ItemsReadable(items, b.items, r, r');
      case Obj(fields) =>
        ReadableObject(fields, b.fields, r, r');
    }
  }

  lemma Unwrap(open: CodeUnit, close: CodeUnit, x: Text, y: Text, r: Text, r': Text)
    requires [open] + x + [close] + r == [open] + y + [close] + r'
    ensures x + [close] + r == y + [close] + r'
  {
    assert [open] + x + [close] + r == [open] + (x + [close] + r);
    assert [open] + y + [close] + r' == [open] + (y + [close] + r');
    SamePrefix([open], x + [close] + r, y + [close] + r');
  }

  lemma {:induction false} ReadableObject(fields: seq<Field>, fields': seq<Field>, r: Text, r': Text)
    requires WellFormed(Obj(fields)) && WellFormed(Obj(fields')) && Stops(r) && Stops(r')
    requires Print(Obj(fields)) + r == Print(Obj(fields')) + r'
    ensures Members(fields) == Members(fields') && Print(Obj(fields)) == Print(Obj(fields')) && r == r'
    decreases fields
  {
    var es, fs := Sort(Entries(fields)), Sort(Entries(fields'));
    Unwrap(LBRACE, RBRACE, Join(MemberTexts(es)), Join(MemberTexts(fs)), r, r');
    SortedEntries(fields);
    SortedEntries(fields');
    EntriesReadable(fields, fields', es, fs, r, r');
    SameEntriesSameMembers(fields, fields', es);
  }

  /** The text of a list opens with its closing bracket exactly when the list is empty. */
  lemma ItemsOpen(xs: seq<Json>, r: Text)
    requires forall i | 0 <= i < |xs| :: WellFormed(xs[i])
    ensures var whole := Join(Printed(xs)) + [RBRACKET] + r; whole[0] == RBRACKET <==> xs == []
  {
    if xs != [] { PrintOpens(xs[0]); JoinSplits(Printed(xs), RBRACKET, r); }
  }

  /** Lists that agree in the first item and in the rest agree. */
  lemma ConsAgree(xs: seq<Json>, ys: seq<Json>)
    requires xs != [] && |xs| == |ys| && Print(xs[0]) == Print(ys[0]) && Meaning(xs[0]) == Meaning(ys[0])
    requires Printed(xs[1..]) == Printed(ys[1..]) && forall i | 0 <= i < |xs| - 1 :: Meaning(xs[1..][i]) == Meaning(ys[1..][i])
    ensures Printed(xs) == Printed(ys) && forall i | 0 <= i < |xs| :: Meaning(xs[i]) == Meaning(ys[i])
  {
    PrintedCons(xs);
    PrintedCons(ys);
    forall i | 0 <= i < |xs| ensures Meaning(xs[i]) == Meaning(ys[i]) {
      if i > 0 { assert xs[i] == xs[1..][i - 1] && ys[i] == ys[1..][i - 1]; }
    }
  }

  lemma PrintedCons(xs: seq<Json>)
    requires xs != []
    ensures Printed(xs) == [Print(xs[0])] + Printed(xs[1..])
  {
  }

  lemma {:induction false} ItemsReadable(xs: seq<Json>, ys: seq<Json>, r: Text, r': Text)
    requires forall i | 0 <= i < |xs| :: WellFormed(xs[i])
    requires forall i | 0 <= i < |ys| :: WellFormed(ys[i])
    requires Join(Printed(xs)) + [RBRACKET] + r == Join(Printed(ys)) + [RBRACKET] + r'
    ensures |xs| == |ys| && r == r' && Printed(xs) == Printed(ys)
    ensures forall i | 0 <= i < |xs| :: Meaning(xs[i]) == Meaning(ys[i])
    decreases xs
  {
    var ps, qs := Printed(xs), Printed(ys);
    ItemsOpen(xs, r);
    ItemsOpen(ys, r');
    if xs != [] { JoinSplits(ps, RBRACKET, r); }
    if ys != [] { JoinSplits(qs, RBRACKET, r'); }
    if xs == [] {
      assert Join(ps) + [RBRACKET] + r == [RBRACKET] + r && Join(qs) + [RBRACKET] + r' == [RBRACKET] + r';
      SamePrefix([RBRACKET], r, r');
    } else {
      Readable(xs[0], ys[0], AfterFirst(ps, RBRACKET, r), AfterFirst(qs, RBRACKET, r'));
      TailsAgree(ps, qs, RBRACKET, r, r');
      if |xs| > 1 {
        assert ps[1..] == Printed(xs[1..]) && qs[1..] == Printed(ys[1..]);
        ItemsReadable(xs[1..], ys[1..], r, r');
        ConsAgree(xs, ys);
      }
    }
  }

  /** Every entry is a printed field. */
  predicate From(es: seq<Entry>, fields: seq<Field>)
  {
    forall k | 0 <= k < |es| :: PrintedFrom(es[k], fields)
  }

  lemma {:induction false} EntriesReadable(fields: seq<Field>, fields': seq<Field>, es: seq<Entry>, fs: seq<Entry>, r: Text, r': Text)
    requires forall i | 0 <= i < |fields| :: WellFormed(fields[i].val)
    requires forall i | 0 <= i < |fields'| :: WellFormed(fields'[i].val)
    requires From(es, fields) && From(fs, fields')
    requires Join(MemberTexts(es)) + [RBRACE] + r == Join(MemberTexts(fs)) + [RBRACE] + r'
    ensures es == fs && r == r'
    ensures forall i, j | 0 <= i < |fields| && 0 <= j < |fields'| && fields[i].key == fields'[j].key ::
              Print(fields[i].val) == Print(fields'[j].val) ==> Meaning(fields[i].val) == Meaning(fields'[j].val)
    decreases fields, |es|
  {
    forall i, j | 0 <= i < |fields| && 0 <= j < |fields'| && fields[i].key == fields'[j].key && Print(fields[i].val) == Print(fields'[j].val)
      ensures Meaning(fields[i].val) == Meaning(fields'[j].val)
    {
      Readable(fields[i].val, fields'[j].val, [], []);
    }
    var ps, qs := MemberTexts(es), MemberTexts(fs);
    if es != [] { JoinSplits(ps, RBRACE, r); }
    if fs != [] { JoinSplits(qs, RBRACE, r'); }
    var whole := Join(ps) + [RBRACE] + r;
    assert whole[0] == if es == [] then RBRACE else QUOTE;
    assert whole[0] == if fs == [] then RBRACE else QUOTE;
    if es == [] {
      assert Join(ps) + [RBRACE] + r == [RBRACE] + r && Join(qs) + [RBRACE] + r' == [RBRACE] + r';
      SamePrefix([RBRACE], r, r');
    } else {
      var rest, rest' := AfterFirst(ps, RBRACE, r), AfterFirst(qs, RBRACE, r');
      MemberReadable(fields, fields', es[0], fs[0], rest, rest');
      TailsAgree(ps, qs, RBRACE, r, r');
      if |es| > 1 {
        assert ps[1..] == MemberTexts(es[1..]) && qs[1..] == MemberTexts(fs[1..]);
        EntriesReadable(fields, fields', es[1..], fs[1..], r, r');
        assert es == [es[0]] + es[1..] && fs == [fs[0]] + fs[1..];
      }
    }
  }

  lemma Regroup(q: Text, t: Text, r: Text)
    ensures q + [COLON] + t + r == q + ([COLON] + (t + r))
  {
  }

  lemma MemberSplits(e: Entry, f: Entry, r: Text, r': Text)
    requires Member(e) + r == Member(f) + r'
    ensures e.key == f.key && e.text + r == f.text + r'
  {
    Regroup(Quote(e.key), e.text, r);
    Regroup(Quote(f.key), f.text, r');
    QuoteReadable(e.key, f.key, [COLON] + (e.text + r), [COLON] + (f.text + r'));
    SamePrefix([COLON], e.text + r, f.text + r');
  }

  lemma {:induction false} MemberReadable(fields: seq<Field>, fields': seq<Field>, e: Entry, f: Entry, r: Text, r': Text)
    requires forall i | 0 <= i < |fields| :: WellFormed(fields[i].val)
    requires forall i | 0 <= i < |fields'| :: WellFormed(fields'[i].val)
    requires PrintedFrom(e, fields) && PrintedFrom(f, fields')
    requires Stops(r) && Stops(r') && Member(e) + r == Member(f) + r'
    ensures e == f && r == r'
    decreases fields, 0
  {
    MemberSplits(e, f, r, r');
    var i :| 0 <= i < |fields| && e == Entry(fields[i].key, Print(fields[i].val));
    var j :| 0 <= j < |fields'| && f == Entry(fields'[j].key, Print(fields'[j].val));
    Readable(fields[i].val, fields'[j].val, r, r');
  }

  lemma SameEntriesSameMembers(fields: seq<Field>, fields': seq<Field>, es: seq<Entry>)
    requires DistinctKeys(fields) && DistinctKeys(fields')
    requires forall e :: e in es <==> PrintedFrom(e, fields)
    requires forall e :: e in es <==> PrintedFrom(e, fields')
    requires forall i, j | 0 <= i < |fields| && 0 <= j < |fields'| && fields[i].key == fields'[j].key ::
               Print(fields[i].val) == Print(fields'[j].val) ==> Meaning(fields[i].val) == Meaning(fields'[j].val)
    ensures Members(fields) == Members(fields')
  {
    MembersAt(fields);
    MembersAt(fields');
    forall k ensures k in Members(fields) ==> k in Members(fields') && Members(fields)[k] == Members(fields')[k] {
      if k in Members(fields) {
        var i :| 0 <= i < |fields| && fields[i].key == k;
        var e := Entry(fields[i].key, Print(fields[i].val));
        assert PrintedFrom(e, fields) && e in es;
        var j :| 0 <= j < |fields'| && e == Entry(fields'[j].key, Print(fields'[j].val));
      }
    }
    forall k ensures k in Members(fields') ==> k in Members(fields) {
      if k in Members(fields') {
        var j :| 0 <= j < |fields'| && fields'[j].key == k;
        var e := Entry(fields'[j].key, Print(fields'[j].val));
        assert PrintedFrom(e, fields') && e in es;
        var i :| 0 <= i < |fields| && e == Entry(fields[i].key, Print(fields[i].val));
      }
    }
  }

  // -------------------------------------------------------------- agreement

  lemma {:induction false} SameMeaningSamePrint(a: Json, b: Json)
    requires WellFormed(a) && WellFormed(b) && Meaning(a) == Meaning(b)
    ensures Print(a) == Print(b)
    decreases a
  {
    match a {
      case Arr(items) =>
        forall i | 0 <= i < |items| ensures Print(items[i]) == Print(b.items[i]) {
          assert Meaning(a).items[i] == Meaning(b).items[i];
          SameMeaningSamePrint(items[i], b.items[i]);
        }
        assert Printed(items) == Printed(b.items);
      case Obj(fields) =>
        MembersAt(fields);
        MembersAt(b.fields);
        SortedEntries(fields);
        SortedEntries(b.fields);
        forall i, j | 0 <= i < |fields| && 0 <= j < |b.fields| && fields[i].key == b.fields[j].key
          ensures Print(fields[i].val) == Print(b.fields[j].val)
        {
          SameMeaningSamePrint(fields[i].val, b.fields[j].val);
        }
        EntriesOfEqualMembers(fields, b.fields);
        AscendingUnique(Sort(Entries(fields)), Sort(Entries(b.fields)));
      case _ =>
    }
  }

  lemma EntriesOfEqualMembers(fields: seq<Field>, fields': seq<Field>)
    requires DistinctKeys(fields) && DistinctKeys(fields') && Members(fields) == Members(fields')
    requires forall i, j | 0 <= i < |fields| && 0 <= j < |fields'| && fields[i].key == fields'[j].key ::
               Print(fields[i].val) == Print(fields'[j].val)
    ensures forall e :: e in Sort(Entries(fields)) <==> e in Sort(Entries(fields'))
  {
    MembersAt(fields);
    MembersAt(fields');
    SortedEntries(fields);
    SortedEntries(fields');
    forall i | 0 <= i < |fields| ensures exists j :: 0 <= j < |fields'| && fields'[j].key == fields[i].key {
      assert fields[i].key in Members(fields');
    }
    forall j | 0 <= j < |fields'| ensures exists i :: 0 <= i < |fields| && fields[i].key == fields'[j].key {
      assert fields'[j].key in Members(fields);
    }
  }

  /** Main result: two values print alike exactly when they differ at most in key order. */
  lemma PrintDecidesMeaning(a: Json, b: Json)
    requires WellFormed(a) && WellFormed(b)
    ensures Print(a) == Print(b) <==> Meaning(a) == Meaning(b)
  {
    if Print(a) == Print(b) { Readable(a, b, [], []); }
    if Meaning(a) == Meaning(b) { SameMeaningSamePrint(a, b); }
  }
}
