/** The text that `stableJson` prints, spelled out case by case (relayer/src/v2-hash.ts:6-33, and
    `JSON.stringify` as sections 25.5.2.3 and 25.5.2.4 of ECMA-262 define it for strings). */
module CanonicalText {
  import opened Wrappers
  import opened JsText
  import opened Canonical
  import opened RelayTypes

  // ------------------------------------------------------------------- leaves

  /** The literals and numbers, as JSON writes them. */
  lemma LeavesSpelled(n: Text)
    ensures Print(Null) == U("null") && Print(Bool(true)) == U("true") && Print(Bool(false)) == U("false") && Print(Num(n)) == n
  {
    assert U("null") == [110, 117, 108, 108];
    assert U("true") == [116, 114, 117, 101];
    assert U("false") == [102, 97, 108, 115, 101];
  }

  /** One hexadecimal digit, lower case. */
  function Digit(d: int): Text
    requires 0 <= d < 16
  {
    [if d < 10 then (d + 48) as CodeUnit else (d + 87) as CodeUnit]
  }

  function Hex4(u: CodeUnit): Text
  {
    var n := u as int;
    Digit(n / 4096) + Digit(n / 256 % 16) + Digit(n / 16 % 16) + Digit(n % 16)
  }

  predicate Surrogate(u: CodeUnit) { 0xD800 <= u <= 0xDFFF }

  /** How one code unit that is not part of a surrogate pair is written. */
  function Written(u: CodeUnit): Text
  {
    if u == 34 then U("\\\"") else if u == 92 then U("\\\\") else if u == 8 then U("\\b") else if u == 9 then U("\\t")
    else if u == 10 then U("\\n") else if u == 12 then U("\\f") else if u == 13 then U("\\r")
    else if u < 32 || Surrogate(u) then U("\\u") + Hex4(u)
    else [u]
  }

  lemma ShortSpelled(u: CodeUnit)
    requires u in {34, 92, 8, 9, 10, 12, 13}
    ensures EscapeUnit(u) == Written(u)
  {
    assert |U("\\\"")| == 2 && U("\\\"")[0] == 92 && U("\\\"")[1] == 34;
    assert |U("\\\\")| == 2 && U("\\\\")[0] == 92 && U("\\\\")[1] == 92;
    assert |U("\\b")| == 2 && U("\\b")[0] == 92 && U("\\b")[1] == 98;
    assert |U("\\t")| == 2 && U("\\t")[0] == 92 && U("\\t")[1] == 116;
    assert |U("\\n")| == 2 && U("\\n")[0] == 92 && U("\\n")[1] == 110;
    assert |U("\\f")| == 2 && U("\\f")[0] == 92 && U("\\f")[1] == 102;
    assert |U("\\r")| == 2 && U("\\r")[0] == 92 && U("\\r")[1] == 114;
  }

  lemma HexSpelled(u: CodeUnit)
    ensures HexEscape(u) == U("\\u") + Hex4(u)
  {
    var n := u as int;
    assert U("\\u") == [92, 117];
    assert Hex4(u) == [HexUnit(n / 4096), HexUnit(n / 256 % 16), HexUnit(n / 16 % 16), HexUnit(n % 16)];
  }

  lemma UnitSpelled(u: CodeUnit)
    ensures EscapeUnit(u) == Written(u)
  {
    if u in {34, 92, 8, 9, 10, 12, 13} { ShortSpelled(u); } else { HexSpelled(u); }
  }

  /** A string is written between quotes. */
  lemma QuotesSpelled(s: Text)
    ensures Print(Str(s)) == U("\"") + Escaped(s) + U("\"")
  {
    assert U("\"") == [34];
  }

  predicate StartsWithPair(s: Text) { |s| >= 2 && 0xD800 <= s[0] <= 0xDBFF && 0xDC00 <= s[1] <= 0xDFFF }

  lemma EscapedStep(s: Text)
    requires s != []
    ensures Escaped(s) == if StartsWithPair(s) then s[..2] + Escaped(s[2..]) else EscapeUnit(s[0]) + Escaped(s[1..])
  {
  }

  /** Between the quotes it is written unit by unit, and a surrogate pair as it is. */
  lemma StringSpelled(s: Text)
    ensures Escaped([]) == []
    ensures s != [] ==> Escaped(s) == if StartsWithPair(s) then s[..2] + Escaped(s[2..]) else Written(s[0]) + Escaped(s[1..])
  {
    if s != [] {
      EscapedStep(s);
      UnitSpelled(s[0]);
    }
  }

  // -------------------------------------------------------- arrays and objects

  /** An array: brackets around its items in order, with commas between. */
  lemma ArraySpelled(x: Json, xs: seq<Json>)
    ensures Print(Arr([])) == U("[]")
    ensures Print(Arr([x] + xs)) == if xs == [] then U("[") + Print(x) + U("]") else U("[") + Print(x) + U(",") + Print(Arr(xs))[1..]
  {
    assert U("[]") == [91, 93] && U("[") == [91] && U("]") == [93] && U(",") == [44];
    var items := [x] + xs;
    assert Printed(items) == [Print(x)] + Printed(xs);
    if xs != [] {
      assert ([Print(x)] + Printed(xs))[1..] == Printed(xs);
      var rest := Join(Printed(xs));
      assert Print(Arr(xs))[1..] == rest + [93];
      assert Print(Arr(items)) == [91] + (Print(x) + [44] + rest) + [93];
      assert [91] + (Print(x) + [44] + rest) + [93] == [91] + Print(x) + [44] + (rest + [93]);
    }
  }

  lemma BeforeAsymmetric(a: Text, b: Text)
    requires Before(a, b)
    ensures !Before(b, a)
  {
    if Before(b, a) {
      BeforeTransitive(a, b, a);
      BeforeIrreflexive(a);
    }
  }

  lemma SmallestFirst(f: Field, fs: seq<Field>)
    requires DistinctKeys(fs) && forall i | 0 <= i < |fs| :: Before(f.key, fs[i].key)
    ensures Sort(Entries([f] + fs)) == [Entry(f.key, Print(f.val))] + Sort(Entries(fs)) && |Sort(Entries(fs))| == |fs|
  {
    var e := Entry(f.key, Print(f.val));
    var all := Entries([f] + fs);
    assert all == [e] + Entries(fs);
    assert all[1..] == Entries(fs) && all[0] == e;
    SortLength(Entries(fs));
    SortedEntries(fs);
    var es := Sort(Entries(fs));
    if es != [] {
      assert es[0] in es;
      var i :| 0 <= i < |fs| && fs[i].key == es[0].key;
      BeforeAsymmetric(f.key, es[0].key);
    }
  }

  lemma {:induction false} SortLength(es: seq<Entry>)
    ensures |Sort(es)| == |es|
  {
    if es != [] {
      SortLength(es[1..]);
      InsertLength(es[0], Sort(es[1..]));
    }
  }

  lemma {:induction false} InsertLength(e: Entry, es: seq<Entry>)
    ensures |Insert(e, es)| == |es| + 1
  {
    if es != [] { InsertLength(e, es[1..]); }
  }

  lemma OneMember(f: Field)
    ensures Print(Obj([f])) == [123] + (Quote(f.key) + [58] + Print(f.val)) + [125]
  {
    var e := Entry(f.key, Print(f.val));
    assert Entries([f]) == [e];
    assert [e][1..] == [];
    assert Sort([e]) == [e];
    assert MemberTexts([e]) == [Member(e)];
  }

  lemma MoreMembers(f: Field, fs: seq<Field>)
    requires fs != [] && DistinctKeys(fs) && forall i | 0 <= i < |fs| :: Before(f.key, fs[i].key)
    ensures Print(Obj([f] + fs)) == [123] + (Quote(f.key) + [58] + Print(f.val)) + [44] + Print(Obj(fs))[1..]
  {
    SmallestFirst(f, fs);
    var e := Entry(f.key, Print(f.val));
    var es := Sort(Entries(fs));
    var m, texts := Member(e), MemberTexts(es);
    assert MemberTexts([e] + es) == [m] + texts;
    assert ([m] + texts)[1..] == texts;
    Joined(m, Join(texts));
  }

  lemma Joined(m: Text, rest: Text)
    ensures [123] + (m + [44] + rest) + [125] == [123] + m + [44] + ([123] + rest + [125])[1..]
  {
    assert ([123] + rest + [125])[1..] == rest + [125];
  }

  /** An object: braces around its members in the order of their keys, each a quoted key, a colon and the value, with
      commas between. */
  lemma ObjectSpelled(f: Field, fs: seq<Field>)
    requires DistinctKeys(fs) && forall i | 0 <= i < |fs| :: Before(f.key, fs[i].key)
    ensures var member := Print(Str(f.key)) + U(":") + Print(f.val);
            && Print(Obj([])) == U("{}")
            && Print(Obj([f] + fs)) == if fs == [] then U("{") + member + U("}") else U("{") + member + U(",") + Print(Obj(fs))[1..]
  {
    assert U("{}") == [123, 125] && U("{") == [123] && U("}") == [125] && U(",") == [44] && U(":") == [58];
    if fs == [] { OneMember(f); assert [f] + fs == [f]; } else { MoreMembers(f, fs); }
  }

  // ------------------------------------------------------------ request text

  /** The fields of a request in the order of their names. */
  function InOrder(h: HashedFields): seq<Field>
  {
    [
      Field(U("action"), Str(ActionText(h.action))),
      Field(U("circuit"), Str(h.circuit)),
      Field(U("contractAddress"), Str(h.contractAddress)),
      Field(U("network"), Str(h.network)),
      Field(U("tx"), Str(h.tx)),
      Field(U("version"), Num(U("1")))
    ]
  }

  lemma NamesAscend()
    ensures Before(U("action"), U("circuit")) && Before(U("circuit"), U("contractAddress")) && Before(U("contractAddress"), U("network"))
    ensures Before(U("network"), U("tx")) && Before(U("tx"), U("version"))
  {
    assert U("action")[0] == 97 && U("circuit")[0] == 99 && U("contractAddress")[0] == 99;
    assert U("circuit")[1] == 105 && U("contractAddress")[1] == 111;
    assert U("network")[0] == 110 && U("tx")[0] == 116 && U("version")[0] == 118;
    assert U("circuit")[1..][0] == 105 && U("contractAddress")[1..][0] == 111;
  }

  predicate KeysAscend(fs: seq<Field>) { forall i, j | 0 <= i < j < |fs| :: Before(fs[i].key, fs[j].key) }

  /** Members as they stand, with commas between. */
  function Listed(fs: seq<Field>): Text
    requires fs != []
  {
    var member := Print(Str(fs[0].key)) + U(":") + Print(fs[0].val);
    if |fs| == 1 then member else member + U(",") + Listed(fs[1..])
  }

  lemma AscendingDistinct(fs: seq<Field>)
    requires KeysAscend(fs)
    ensures DistinctKeys(fs)
  {
    forall i, j | 0 <= i < j < |fs| ensures fs[i].key != fs[j].key { BeforeIrreflexive(fs[i].key); }
  }

  /** An object whose members stand in order is printed as they stand. */
  lemma {:induction false} AscendingSpelled(fs: seq<Field>)
    requires fs != [] && KeysAscend(fs)
    ensures Print(Obj(fs)) == U("{") + Listed(fs) + U("}")
  {
    var rest := fs[1..];
    assert fs == [fs[0]] + rest;
    assert KeysAscend(rest);
    AscendingDistinct(rest);
    ObjectSpelled(fs[0], rest);
    if rest == [] {
      assert |fs| == 1;
    } else {
      AscendingSpelled(rest);
      var member := Print(Str(fs[0].key)) + U(":") + Print(fs[0].val);
      Opened(U("{"), member, U(","), Listed(rest), U("}"));
    }
  }

  lemma Opened(open: Text, member: Text, comma: Text, list: Text, close: Text)
    requires |open| == 1
    ensures open + member + comma + (open + list + close)[1..] == open + (member + comma + list) + close
  {
    assert (open + list + close)[1..] == list + close;
  }

  lemma AscendOneMore(f: Field, fs: seq<Field>)
    requires KeysAscend(fs) && fs != [] && Before(f.key, fs[0].key)
    ensures KeysAscend([f] + fs)
  {
    forall i | 0 < i < |fs| ensures Before(f.key, fs[i].key) { BeforeTransitive(f.key, fs[0].key, fs[i].key); }
  }

  lemma NamesInOrder(h: HashedFields)
    ensures KeysAscend(InOrder(h))
  {
    NamesAscend();
    var fs := InOrder(h);
    AscendOneMore(fs[4], [fs[5]]);
    AscendOneMore(fs[3], [fs[4]] + [fs[5]]);
    AscendOneMore(fs[2], [fs[3]] + ([fs[4]] + [fs[5]]));
    AscendOneMore(fs[1], [fs[2]] + ([fs[3]] + ([fs[4]] + [fs[5]])));
    AscendOneMore(fs[0], [fs[1]] + ([fs[2]] + ([fs[3]] + ([fs[4]] + [fs[5]]))));
    assert fs == [fs[0]] + ([fs[1]] + ([fs[2]] + ([fs[3]] + ([fs[4]] + [fs[5]]))));
  }

  lemma MembersOfMore(f: Field, fs: seq<Field>)
    ensures Members([f] + fs) == Members(fs)[f.key := Meaning(f.val)]
  {
    assert ([f] + fs)[1..] == fs;
  }

  lemma SwapMembers(f: Field, a: Field, b: Field, fs: seq<Field>)
    requires a.key != b.key
    ensures Members([f, a, b] + fs) == Members([f, b, a] + fs)
  {
    MembersOfMore(f, [a, b] + fs);
    MembersOfMore(f, [b, a] + fs);
    MembersOfMore(a, [b] + fs);
    MembersOfMore(b, [a] + fs);
    MembersOfMore(a, fs);
    MembersOfMore(b, fs);
    assert [f] + ([a, b] + fs) == [f, a, b] + fs && [f] + ([b, a] + fs) == [f, b, a] + fs;
    assert [a] + ([b] + fs) == [a, b] + fs && [b] + ([a] + fs) == [b, a] + fs;
  }

  lemma InOrderAgrees(h: HashedFields)
    ensures var fs := Preimage(h).fields; InOrder(h) == [fs[0], fs[2], fs[1]] + fs[3..] && fs == [fs[0], fs[1], fs[2]] + fs[3..]
  {
  }

  lemma InOrderWellFormed(h: HashedFields)
    requires DistinctKeys(InOrder(h))
    ensures WellFormed(Obj(InOrder(h)))
  {
    var fs, gs := Preimage(h).fields, InOrder(h);
    PreimageWellFormed(h);
    InOrderAgrees(h);
    forall i | 0 <= i < |gs| ensures WellFormed(gs[i].val) { assert gs[i] in fs; }
  }

  lemma SameMembers(h: HashedFields)
    ensures Members(Preimage(h).fields) == Members(InOrder(h))
  {
    var fs := Preimage(h).fields;
    InOrderAgrees(h);
    assert |fs[1].key| != |fs[2].key|;
    SwapMembers(fs[0], fs[1], fs[2], fs[3..]);
  }

  /** The hashed text of a request, literally: an object of the five fields and the version number under their names,
      in the order of the names, without any space. */
  lemma RequestSpelled(h: HashedFields)
    ensures RequestText(h) == U("{") + Listed(InOrder(h)) + U("}")
  {
    NamesInOrder(h);
    AscendingDistinct(InOrder(h));
    PreimageWellFormed(h);
    InOrderWellFormed(h);
    SameMembers(h);
    SameMeaningSamePrint(Preimage(h), Obj(InOrder(h)));
    AscendingSpelled(InOrder(h));
  }
}
