/** JavaScript strings as the sequences of UTF-16 code units they are, with the
    code-unit order that `Array.prototype.sort` uses for strings. */
module JsText {

  newtype CodeUnit = x: int | 0 <= x < 0x1_0000

  type Text = seq<CodeUnit>

  /** `Number.MAX_SAFE_INTEGER`. */
  const MAX_SAFE: int := 0x1F_FFFF_FFFF_FFFF

  /** The text of a Dafny literal that holds only basic-plane characters. */
  function U(s: string): (t: Text)
    requires forall i | 0 <= i < |s| :: s[i] as int < 0x1_0000
  {
    seq(|s|, i requires 0 <= i < |s| => s[i] as int as CodeUnit)
  }

  /** Strict lexicographic order on code units. */
  predicate Before(a: Text, b: Text)
  {
    b != [] && (a == [] || a[0] < b[0] || (a[0] == b[0] && Before(a[1..], b[1..])))
  }

  lemma {:induction false} BeforeIrreflexive(a: Text)
    ensures !Before(a, a)
  {
    if a != [] { BeforeIrreflexive(a[1..]); }
  }

  lemma {:induction false} BeforeTransitive(a: Text, b: Text, c: Text)
    requires Before(a, b) && Before(b, c)
    ensures Before(a, c)
  {
    if a != [] && a[0] == b[0] == c[0] { BeforeTransitive(a[1..], b[1..], c[1..]); }
  }

  lemma {:induction false} BeforeTotal(a: Text, b: Text)
    ensures a == b || Before(a, b) || Before(b, a)
  {
    if a != [] && b != [] && a[0] == b[0] {
      BeforeTotal(a[1..], b[1..]);
      assert a == [a[0]] + a[1..] && b == [b[0]] + b[1..];
    }
  }
}
