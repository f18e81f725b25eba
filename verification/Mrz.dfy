/** Reading the machine-readable zone of a passport: check digits and the TD3 layout
    (ui/src/integration/mrz.ts; section 4.9 of ICAO Doc 9303 Part 3 and section 4.2 of Part 4). */
module Mrz {
  import opened Wrappers
  import opened MrzDates

  /** Face value of digits, A = 10 .. Z = 35, filler 0; anything else has no value. */
  function Value(c: char): (v: Option<nat>)
    ensures v.Some? ==> v.value <= 35
  {
    if '0' <= c <= '9' then Some(c as nat - 48)
    else if 'A' <= c <= 'Z' then Some(c as nat - 55)
    else if c == '<' then Some(0)
    else None
  }

  predicate AllMrz(s: string) { forall i | 0 <= i < |s| :: Value(s[i]).Some? }

  function Weighted(i: nat, v: int): int { if i % 3 == 0 then 7 * v else if i % 3 == 1 then 3 * v else v }

  /** The weighted sum over the first `n` characters. */
  function Sum(s: string, n: nat): int
    requires AllMrz(s) && n <= |s|
  {
    if n == 0 then 0 else Sum(s, n - 1) + Weighted(n - 1, Value(s[n - 1]).value)
  }

  /** The check digit of a field, or none where the source computes NaN. */
  function CheckDigit(s: string): (d: Option<nat>)
    ensures d.Some? ==> d.value < 10
  {
    if AllMrz(s) then Some(Sum(s, |s|) % 10) else None
  }

  method ComputeCheckDigit(value: string) returns (digit: Option<nat>)
    ensures digit == CheckDigit(value)
  {
    var sum := 0;
    var index := 0;
    while index < |value|
      invariant 0 <= index <= |value| && AllMrz(value[..index])
      invariant sum == Sum(value[..index], index)
    {
      var v := Value(value[index]);
      if v.None? {
        return None;
      }
      sum := sum + Weighted(index, v.value);
      SumOfPrefix(value[..index], value[..index + 1], index);
      index := index + 1;
    }
    assert value[..index] == value;
    return Some(sum % 10);
  }

  lemma {:induction false} SumOfPrefix(s: string, t: string, n: nat)
    requires AllMrz(s) && AllMrz(t) && n <= |s| && n <= |t| && s[..n] == t[..n]
    ensures Sum(s, n) == Sum(t, n)
  {
    if n > 0 {
      assert s[n - 1] == s[..n][n - 1] == t[n - 1];
      assert s[..n - 1] == s[..n][..n - 1] == t[..n - 1];
      SumOfPrefix(s, t, n - 1);
    }
  }

  // --------------------------------------------------------- error detection

  function Swapped(s: string, i: nat): string
    requires i + 1 < |s|
  {
    s[i := s[i + 1]][i + 1 := s[i]]
  }

  lemma {:induction false} SumAfterChange(s: string, i: nat, c: char, n: nat)
    requires AllMrz(s) && i < |s| && Value(c).Some? && n <= |s|
    ensures AllMrz(s[i := c])
    ensures Sum(s[i := c], n) == Sum(s, n) + if i < n then Weighted(i, Value(c).value - Value(s[i]).value) else 0
  {
    if n > 0 { SumAfterChange(s, i, c, n - 1); }
  }

  lemma WeightsAreUnits(i: nat, d: int, k: int)
    requires k == Weighted(i, d)
    ensures k % 10 == 0 <==> d % 10 == 0
  {
    if i % 3 == 0 { assert 3 * k == 21 * d; }
  }

  lemma WeightsDifferByTwiceUnits(i: nat, d: int)
    ensures (Weighted(i, d) + Weighted(i + 1, -d)) % 10 == 0 <==> d % 5 == 0
  {
    var k := Weighted(i, d) + Weighted(i + 1, -d);
    assert k == 4 * d || k == 2 * d || k == -6 * d;
    TwiceAUnit(d, k);
  }

  lemma TwiceAUnit(d: int, k: int)
    requires k == 4 * d || k == 2 * d || k == -6 * d
    ensures k % 10 == 0 <==> d % 5 == 0
  {
    var q, r := d / 5, d % 5;
    assert r == 0 || r == 1 || r == 2 || r == 3 || r == 4;
    if k == 4 * d { TensDropOut(2 * q, 4 * r); }
    else if k == 2 * d { TensDropOut(q, 2 * r); }
    else { TensDropOut(-3 * q, -6 * r); }
  }

  lemma TensDropOut(a: int, b: int)
    ensures (10 * a + b) % 10 == b % 10
  {
  }

  lemma SameRemainder(a: int, b: int, m: int)
    requires m == 5 || m == 10
    ensures a % m == b % m <==> (a - b) % m == 0
  {
  }

  /** One wrong character leaves the check digit alone exactly when the two values agree modulo 10. */
  lemma SubstitutionDetected(s: string, i: nat, c: char)
    requires AllMrz(s) && i < |s| && Value(c).Some?
    ensures CheckDigit(s[i := c]) == CheckDigit(s) <==> Value(c).value % 10 == Value(s[i]).value % 10
  {
    var d := Value(c).value - Value(s[i]).value;
    SumAfterChange(s, i, c, |s|);
    SameRemainder(Sum(s[i := c], |s|), Sum(s, |s|), 10);
    WeightsAreUnits(i, d, Weighted(i, d));
    SameRemainder(Value(c).value, Value(s[i]).value, 10);
  }

  /** Two neighbours swapped leave the check digit alone exactly when their values agree modulo 5. */
  lemma TranspositionDetected(s: string, i: nat)
    requires AllMrz(s) && i + 1 < |s|
    ensures AllMrz(Swapped(s, i))
    ensures CheckDigit(Swapped(s, i)) == CheckDigit(s) <==> Value(s[i]).value % 5 == Value(s[i + 1]).value % 5
  {
    var t := s[i := s[i + 1]];
    var d := Value(s[i + 1]).value - Value(s[i]).value;
    SumAfterChange(s, i, s[i + 1], |s|);
    SumAfterChange(t, i + 1, s[i], |s|);
    SameRemainder(Sum(Swapped(s, i), |s|), Sum(s, |s|), 10);
    WeightsDifferByTwiceUnits(i, d);
    SameRemainder(Value(s[i + 1]).value, Value(s[i]).value, 5);
  }

  // ---------------------------------------------------------------- TD3 lines

  const TD3_LINE_LENGTH := 44

  datatype Sex = M | F | X

  datatype Record = Record(issuingState: string, documentNumber: string, nationality: string, birthDate: string,
                           expiryDate: string, sex: Sex)

  datatype Failure = Malformed | UnsupportedFormat | CheckDocumentNumber | CheckBirthDate | CheckExpiryDate
                   | CheckComposite | InvalidDate

  datatype Result = Ok(record: Record) | Rejected(reason: Failure)

  function DigitChar(d: nat): (c: char)
    requires d < 10
    ensures Value(c) == Some(d)
  {
    (48 + d) as char
  }

  predicate CheckMatches(value: string, expected: char)
  {
    CheckDigit(value).Some? && DigitChar(CheckDigit(value).value) == expected
  }

  function Stripped(s: string): string
  {
    if s == "" then "" else (if s[0] == '<' then "" else [s[0]]) + Stripped(s[1..])
  }

  function Composite(line: string): (c: string)
    requires |line| == TD3_LINE_LENGTH
    ensures |c| == 39
  {
    line[0..10] + line[13..20] + line[21..43]
  }

  /** `parseTd3` on the normalised lines of its input. */
  function ParseTd3(lines: seq<string>, reference: Instant): Result
  {
    if |lines| < 2 then Rejected(Malformed)
    else ParseLines(lines[|lines| - 2], lines[|lines| - 1], reference)
  }

  function ParseLines(line1: string, line2: string, reference: Instant): Result
  {
    if |line1| != TD3_LINE_LENGTH || |line2| != TD3_LINE_LENGTH then Rejected(Malformed)
    else if line1[0] != 'P' then Rejected(UnsupportedFormat)
    else if !CheckMatches(line2[0..9], line2[9]) then Rejected(CheckDocumentNumber)
    else if !CheckMatches(line2[13..19], line2[19]) then Rejected(CheckBirthDate)
    else if !CheckMatches(line2[21..27], line2[27]) then Rejected(CheckExpiryDate)
    else if !CheckMatches(Composite(line2), line2[43]) then Rejected(CheckComposite)
    else if ExpandMrzDate(line2[13..19], Birth, reference).None? then Rejected(InvalidDate)
    else if ExpandMrzDate(line2[21..27], Expiry, reference).None? then Rejected(InvalidDate)
    else
      var issuingState := Stripped(line1[2..5]);
      var nationality := Stripped(line2[10..13]);
      Ok(Record(issuingState, Stripped(line2[0..9]), if nationality != "" then nationality else issuingState,
                line2[13..19], line2[21..27],
                if line2[20] == 'M' then M else if line2[20] == 'F' then F else X))
  }

  /** The part of acceptance that concerns the second line. */
  predicate LineAccepted(line: string, reference: Instant)
    requires |line| == TD3_LINE_LENGTH
  {
    && CheckMatches(line[0..9], line[9]) && CheckMatches(line[13..19], line[19]) && CheckMatches(line[21..27], line[27])
    && CheckMatches(Composite(line), line[43])
    && ExpandMrzDate(line[13..19], Birth, reference).Some? && ExpandMrzDate(line[21..27], Expiry, reference).Some?
  }

  lemma AcceptedByLine(line1: string, line2: string, reference: Instant)
    ensures ParseLines(line1, line2, reference).Ok? <==>
            |line1| == |line2| == TD3_LINE_LENGTH && line1[0] == 'P' && LineAccepted(line2, reference)
  {
  }

  /** Position of a line-2 character inside the composite, if it is covered by it. */
  function CompositeIndex(p: nat): (q: Option<nat>)
    ensures q.Some? ==> q.value < 39
  {
    if p < 10 then Some(p) else if 13 <= p < 20 then Some(p - 3) else if 21 <= p < 43 then Some(p - 4) else None
  }

  lemma CompositeChange(line: string, p: nat, c: char)
    requires |line| == TD3_LINE_LENGTH && p < 44
    ensures CompositeIndex(p).Some? ==> Composite(line)[CompositeIndex(p).value] == line[p]
    ensures Composite(line[p := c]) == match CompositeIndex(p) case None => Composite(line) case Some(q) => Composite(line)[q := c]
  {
  }

  lemma SliceChange(line: string, a: nat, b: nat, p: nat, c: char)
    requires a <= b <= |line| && p < |line|
    ensures line[p := c][a..b] == if a <= p < b then line[a..b][p - a := c] else line[a..b]
  {
  }

  /** A field still matches its unchanged check digit exactly when the new character has a congruent value. */
  lemma FieldAfterChange(s: string, i: nat, c: char, check: char)
    requires i < |s| && CheckMatches(s, check)
    ensures CheckMatches(s[i := c], check) <==> Value(c).Some? && Value(c).value % 10 == Value(s[i]).value % 10
  {
    if Value(c).Some? {
      SubstitutionDetected(s, i, c);
      SumAfterChange(s, i, c, |s|);
      assert Value(DigitChar(CheckDigit(s).value)) == Value(check);
    } else {
      assert s[i := c][i] == c;
    }
  }

  predicate Congruent(c: char, d: char)
  {
    Value(c).Some? && Value(d).Some? && Value(c).value % 10 == Value(d).value % 10
  }

  /** The characters of line 2 that one substitution can slip past every check. */
  predicate Slips(line: string, p: nat, c: char)
    requires p < |line|
  {
    p in {10, 11, 12, 20} || ((p < 9 || 28 <= p < 43) && Congruent(c, line[p]))
  }

  lemma CompositeAfterChange(line: string, p: nat, c: char)
    requires |line| == TD3_LINE_LENGTH && p < 43 && CheckMatches(Composite(line), line[43])
    ensures CheckMatches(Composite(line[p := c]), line[43]) <==> p in {10, 11, 12, 20} || Congruent(c, line[p])
  {
    CompositeChange(line, p, c);
    var q := CompositeIndex(p);
    if q.Some? {
      FieldAfterChange(Composite(line), q.value, c, line[43]);
      assert Value(Composite(line)[q.value]).Some?;
    }
  }

  lemma DateCharsAreDigits(s: string, kind: Kind, reference: Instant, i: nat, c: char)
    requires ExpandMrzDate(s, kind, reference).Some? && i < |s| && c != s[i]
    ensures Congruent(c, s[i]) ==> ExpandMrzDate(s[i := c], kind, reference).None?
  {
    if Congruent(c, s[i]) {
      assert IsDigit(s[i]);
      assert s[i := c][i] == c;
      assert !IsDigit(c);
    }
  }

  lemma LineAfterChange(line: string, p: nat, c: char, reference: Instant)
    requires |line| == TD3_LINE_LENGTH && p < 44 && c != line[p] && LineAccepted(line, reference)
    ensures LineAccepted(line[p := c], reference) <==> Slips(line, p, c)
  {
    var line' := line[p := c];
    SliceChange(line, 0, 9, p, c);
    SliceChange(line, 13, 19, p, c);
    SliceChange(line, 21, 27, p, c);
    if p < 43 { CompositeAfterChange(line, p, c); }
    if p < 9 {
      FieldAfterChange(line[0..9], p, c, line[9]);
      assert line[0..9][p] == line[p];
      assert Value(line[0..9][p]).Some?;
    } else if 13 <= p < 19 {
      FieldAfterChange(line[13..19], p - 13, c, line[19]);
      DateCharsAreDigits(line[13..19], Birth, reference, p - 13, c);
      assert line[13..19][p - 13] == line[p];
    } else if 21 <= p < 27 {
      FieldAfterChange(line[21..27], p - 21, c, line[27]);
      DateCharsAreDigits(line[21..27], Expiry, reference, p - 21, c);
      assert line[21..27][p - 21] == line[p];
    } else if p == 43 {
      CompositeChange(line, 43, c);
    }
  }

  /** Exactly which misread characters of an accepted document go unnoticed: on line 1 all but the first; on
      line 2 the nationality and the sex, and in the document number, the optional data and its digit those
      whose value agrees modulo 10. Lines are normalised before they are parsed, so of the characters without
      a value, which the free positions would let through too, none is ever read. */
  lemma MisreadsThatPass(line1: string, line2: string, p: nat, c: char, reference: Instant)
    requires ParseLines(line1, line2, reference).Ok? && p < 44
    ensures c != line1[p] ==> (ParseLines(line1[p := c], line2, reference).Ok? <==> p > 0)
    ensures c != line2[p] ==> (ParseLines(line1, line2[p := c], reference).Ok? <==> Slips(line2, p, c))
  {
    AcceptedByLine(line1, line2, reference);
    AcceptedByLine(line1, line2[p := c], reference);
    if c != line2[p] { LineAfterChange(line2, p, c, reference); }
  }

  /** What the caller is told of a misread character that does not go unnoticed: the field it spoils, the date it
      spoils when the digit still agrees, and the composite where nothing else covers it. */
  lemma MisreadIsReported(line1: string, line2: string, p: nat, c: char, reference: Instant)
    requires ParseLines(line1, line2, reference).Ok? && p < 44
    ensures p == 0 && c != line1[0] ==> ParseLines(line1[0 := c], line2, reference) == Rejected(UnsupportedFormat)
    ensures c != line2[p] && !Slips(line2, p, c) ==>
              ParseLines(line1, line2[p := c], reference) == Rejected(
                if p < 10 then CheckDocumentNumber
                else if 13 <= p < 20 then (if p < 19 && Congruent(c, line2[p]) then InvalidDate else CheckBirthDate)
                else if 21 <= p < 28 then (if p < 27 && Congruent(c, line2[p]) then InvalidDate else CheckExpiryDate)
                else CheckComposite)
  {
    if c != line2[p] && !Slips(line2, p, c) {
      SliceChange(line2, 0, 9, p, c);
      SliceChange(line2, 13, 19, p, c);
      SliceChange(line2, 21, 27, p, c);
      if p < 9 { FieldSpoiled(line2, 0, 9, p, c); }
      else if 13 <= p < 19 { DateSpoiled(line2, 13, p, c, Birth, reference); }
      else if 21 <= p < 27 { DateSpoiled(line2, 21, p, c, Expiry, reference); }
      else if p < 43 { CompositeAfterChange(line2, p, c); }
      else { CompositeChange(line2, 43, c); }
    }
  }

  lemma FieldSpoiled(line: string, a: nat, b: nat, p: nat, c: char)
    requires a <= p < b < |line| && CheckMatches(line[a..b], line[b])
    ensures CheckMatches(line[p := c][a..b], line[p := c][b]) <==> Congruent(c, line[p])
  {
    SliceChange(line, a, b, p, c);
    FieldAfterChange(line[a..b], p - a, c, line[b]);
    assert line[a..b][p - a] == line[p] && Value(line[a..b][p - a]).Some?;
  }

  lemma DateSpoiled(line: string, a: nat, p: nat, c: char, kind: Kind, reference: Instant)
    requires |line| == TD3_LINE_LENGTH && a == (if kind.Birth? then 13 else 21) && a <= p < a + 6 && c != line[p] && LineAccepted(line, reference)
    ensures CheckMatches(line[p := c][a..a + 6], line[a + 6]) <==> Congruent(c, line[p])
    ensures Congruent(c, line[p]) ==> CheckMatches(Composite(line[p := c]), line[43])
    ensures Congruent(c, line[p]) ==> ExpandMrzDate(line[p := c][a..a + 6], kind, reference).None?
  {
    FieldSpoiled(line, a, a + 6, p, c);
    CompositeAfterChange(line, p, c);
    SliceChange(line, a, a + 6, p, c);
    assert line[a..a + 6][p - a] == line[p];
    DateCharsAreDigits(line[a..a + 6], kind, reference, p - a, c);
  }

  // ------------------------------------------------------- neighbours swapped

  /** Values that agree modulo 5. */
  predicate Near(c: char, d: char)
  {
    Value(c).Some? && Value(d).Some? && Value(c).value % 5 == Value(d).value % 5
  }

  /** The two dates of a line. */
  function DateAt(line: string, a: nat): string
    requires a + 6 <= |line|
  {
    line[a..a + 6]
  }

  /** The neighbours of line 2 whose swap slips past every check: anything inside the nationality; values that
      agree modulo 5 inside the number, the optional data and the dates, as long as a date stays a date; the
      same with a digit for a check digit and the character before it; and elsewhere only equal characters. */
  predicate SwapSlips(line: string, p: nat, reference: Instant)
    requires |line| == TD3_LINE_LENGTH && p < 43
  {
    if p in {10, 11} then true
    else if p in {9, 12, 19, 20, 27} then line[p] == line[p + 1]
    else if p == 8 || p == 42 then IsDigit(line[p]) && Near(line[p], line[p + 1])
    else if 13 <= p < 19 then Near(line[p], line[p + 1]) && ExpandMrzDate(DateAt(Swapped(line, p), 13), Birth, reference).Some?
    else if 21 <= p < 27 then Near(line[p], line[p + 1]) && ExpandMrzDate(DateAt(Swapped(line, p), 21), Expiry, reference).Some?
    else Near(line[p], line[p + 1])
  }

  lemma FieldAfterSwap(s: string, i: nat, check: char)
    requires i + 1 < |s| && CheckMatches(s, check)
    ensures CheckMatches(Swapped(s, i), check) <==> Near(s[i], s[i + 1])
  {
    TranspositionDetected(s, i);
    DigitCharsDiffer(CheckDigit(Swapped(s, i)).value, CheckDigit(s).value);
  }

  lemma TwiceTheDifference(sum: int, c: int, d: int)
    requires sum % 10 == d && 0 <= d < 10
    ensures (sum + d - c) % 10 == c % 10 <==> c % 5 == d % 5
  {
    var q := sum / 10;
    assert sum + d - c - c == 10 * q + 2 * (d - c);
    SameRemainder(sum + d - c, c, 10);
    TensDropOut(q, 2 * (d - c));
    TwiceAUnit(d - c, 2 * (d - c));
    SameRemainder(d, c, 5);
  }

  lemma DigitsAreChars(c: char)
    requires Value(c).Some?
    ensures IsDigit(c) <==> Value(c).value < 10 && c == DigitChar(Value(c).value)
  {
  }

  /** The last character of a field of weight one, swapped with the field's check digit. */
  lemma FieldAfterCheckSwap(s: string, check: char)
    requires |s| % 3 == 0 && s != "" && CheckMatches(s, check)
    ensures var c := s[|s| - 1];
            CheckMatches(s[|s| - 1 := check], c) <==> IsDigit(c) && Near(c, check)
  {
    var i := |s| - 1;
    var c := s[i];
    LastCharChanged(s, check);
    TwiceTheDifference(Sum(s, |s|), Value(c).value, Value(check).value);
    DigitsAreChars(c);
    if IsDigit(c) { DigitCharsDiffer(CheckDigit(s[i := check]).value, Value(c).value); }
  }

  lemma LastCharChanged(s: string, d: char)
    requires |s| % 3 == 0 && s != "" && AllMrz(s) && Value(d).Some?
    ensures AllMrz(s[|s| - 1 := d])
    ensures Sum(s[|s| - 1 := d], |s|) == Sum(s, |s|) + Value(d).value - Value(s[|s| - 1]).value
  {
    SumAfterChange(s, |s| - 1, d, |s|);
  }

  lemma CompositeAfterSwap(line: string, p: nat)
    requires |line| == TD3_LINE_LENGTH && p < 42 && CompositeIndex(p).Some? && CompositeIndex(p + 1).Some?
    ensures var q := CompositeIndex(p).value;
            && q + 1 < 39 && Composite(line)[q] == line[p] && Composite(line)[q + 1] == line[p + 1]
            && Composite(Swapped(line, p)) == Swapped(Composite(line), q)
  {
    CompositeChange(line, p, line[p + 1]);
    CompositeChange(line, p + 1, line[p]);
    CompositeChange(line[p := line[p + 1]], p + 1, line[p]);
  }

  lemma CompositeSwapMatches(line: string, p: nat)
    requires |line| == TD3_LINE_LENGTH && p < 42 && CompositeIndex(p).Some? && CompositeIndex(p + 1).Some?
    requires CheckMatches(Composite(line), line[43])
    ensures CheckMatches(Composite(Swapped(line, p)), line[43]) <==> Near(line[p], line[p + 1])
  {
    CompositeAfterSwap(line, p);
    FieldAfterSwap(Composite(line), CompositeIndex(p).value, line[43]);
  }

  /** What a swap leaves of the three fields with their own check digit. */
  lemma FieldsAfterSwap(line: string, p: nat)
    requires |line| == TD3_LINE_LENGTH && p < 43
    ensures var s := Swapped(line, p);
            && s[0..9] == (if p < 8 then Swapped(line[0..9], p) else if p == 8 then line[0..9][8 := line[9]] else line[0..9])
            && s[13..19] == (if 13 <= p < 18 then Swapped(line[13..19], p - 13) else if p == 18 then line[13..19][5 := line[19]]
                             else if p == 12 then line[13..19][0 := line[12]] else line[13..19])
            && s[21..27] == (if 21 <= p < 26 then Swapped(line[21..27], p - 21) else if p == 26 then line[21..27][5 := line[27]]
                             else if p == 20 then line[21..27][0 := line[20]] else line[21..27])
  {
  }

  lemma NumberSwap(line: string, p: nat, reference: Instant)
    requires |line| == TD3_LINE_LENGTH && p < 9 && LineAccepted(line, reference)
    ensures LineAccepted(Swapped(line, p), reference) <==> SwapSlips(line, p, reference)
  {
    FieldsAfterSwap(line, p);
    CompositeSwapMatches(line, p);
    var number := line[0..9];
    if p < 8 {
      assert number[p] == line[p] && number[p + 1] == line[p + 1];
      FieldAfterSwap(number, p, line[9]);
    } else {
      FieldAfterCheckSwap(number, line[9]);
    }
  }

  lemma OptionalSwap(line: string, p: nat, reference: Instant)
    requires |line| == TD3_LINE_LENGTH && 28 <= p < 42 && LineAccepted(line, reference)
    ensures LineAccepted(Swapped(line, p), reference) <==> SwapSlips(line, p, reference)
  {
    FieldsAfterSwap(line, p);
    CompositeSwapMatches(line, p);
  }

  lemma CompositeCheckSwap(line: string, reference: Instant)
    requires |line| == TD3_LINE_LENGTH && LineAccepted(line, reference)
    ensures LineAccepted(Swapped(line, 42), reference) <==> SwapSlips(line, 42, reference)
  {
    FieldsAfterSwap(line, 42);
    CompositeChange(line, 42, line[43]);
    CompositeChange(line[42 := line[43]], 43, line[42]);
    FieldAfterCheckSwap(Composite(line), line[43]);
  }

  lemma DateCharIsDigit(s: string, kind: Kind, reference: Instant, i: nat)
    requires ExpandMrzDate(s, kind, reference).Some? && i < |s|
    ensures IsDigit(s[i])
  {
  }

  lemma DateSwap(line: string, a: nat, p: nat, kind: Kind, reference: Instant)
    requires |line| == TD3_LINE_LENGTH && a == (if kind.Birth? then 13 else 21) && a <= p < a + 6 && LineAccepted(line, reference)
    ensures LineAccepted(Swapped(line, p), reference) <==> SwapSlips(line, p, reference)
  {
    FieldsAfterSwap(line, p);
    CompositeSwapMatches(line, p);
    var field := line[a..a + 6];
    assert field[p - a] == line[p];
    if p < a + 5 {
      assert field[p - a + 1] == line[p + 1];
      FieldAfterSwap(field, p - a, line[a + 6]);
    } else {
      FieldAfterCheckSwap(field, line[a + 6]);
      DateCharIsDigit(field, kind, reference, 5);
    }
  }

  /** One of the two characters is covered by nothing, and the other is pinned. */
  lemma PinnedSwap(line: string, p: nat, reference: Instant)
    requires |line| == TD3_LINE_LENGTH && p in {9, 12, 19, 20} && LineAccepted(line, reference)
    ensures LineAccepted(Swapped(line, p), reference) <==> SwapSlips(line, p, reference)
  {
    if line[p] == line[p + 1] {
      assert Swapped(line, p) == line;
    } else {
      var free, pinned := if p in {9, 19} then p + 1 else p, if p in {9, 19} then p else p + 1;
      var half := line[free := line[pinned]];
      LineAfterChange(line, free, line[pinned], reference);
      LineAfterChange(half, pinned, line[free], reference);
      assert Swapped(line, p) == half[pinned := line[free]];
    }
  }

  lemma ExpiryCheckSwap(line: string, reference: Instant)
    requires |line| == TD3_LINE_LENGTH && LineAccepted(line, reference)
    ensures LineAccepted(Swapped(line, 27), reference) <==> SwapSlips(line, 27, reference)
  {
    FieldsAfterSwap(line, 27);
    if line[27] == line[28] { assert Swapped(line, 27) == line; }
  }

  lemma FreeSwap(line: string, p: nat, reference: Instant)
    requires |line| == TD3_LINE_LENGTH && p in {10, 11} && LineAccepted(line, reference)
    ensures LineAccepted(Swapped(line, p), reference)
  {
    if line[p] == line[p + 1] { assert Swapped(line, p) == line; }
    else {
      LineAfterChange(line, p, line[p + 1], reference);
      LineAfterChange(line[p := line[p + 1]], p + 1, line[p], reference);
    }
  }

  lemma LineAfterSwap(line: string, p: nat, reference: Instant)
    requires |line| == TD3_LINE_LENGTH && p < 43 && LineAccepted(line, reference)
    ensures LineAccepted(Swapped(line, p), reference) <==> SwapSlips(line, p, reference)
  {
    if p < 9 { NumberSwap(line, p, reference); }
    else if 13 <= p < 19 { DateSwap(line, 13, p, Birth, reference); }
    else if 21 <= p < 27 { DateSwap(line, 21, p, Expiry, reference); }
    else if p in {10, 11} { FreeSwap(line, p, reference); }
    else if p == 27 { ExpiryCheckSwap(line, reference); }
    else if p < 28 { PinnedSwap(line, p, reference); }
    else if p < 42 { OptionalSwap(line, p, reference); }
    else { CompositeCheckSwap(line, reference); }
  }

  /** Exactly which neighbours of an accepted document can be read in the wrong order unnoticed: on line 1 all
      that keep the leading P, and on line 2 those that `SwapSlips` names, position by position. */
  lemma SwapsThatPass(line1: string, line2: string, p: nat, reference: Instant)
    requires ParseLines(line1, line2, reference).Ok? && p < 43
    ensures ParseLines(Swapped(line1, p), line2, reference).Ok? <==> p > 0 || line1[1] == 'P'
    ensures ParseLines(line1, Swapped(line2, p), reference).Ok? <==> SwapSlips(line2, p, reference)
  {
    AcceptedByLine(line1, line2, reference);
    AcceptedByLine(Swapped(line1, p), line2, reference);
    AcceptedByLine(line1, Swapped(line2, p), reference);
    LineAfterSwap(line2, p, reference);
  }

  lemma DigitCharsDiffer(d: nat, e: nat)
    requires d < 10 && e < 10
    ensures DigitChar(d) == DigitChar(e) <==> d == e
  {
    assert Value(DigitChar(d)) == Some(d);
  }

  // ------------------------------------------------------ an accepted document

  lemma {:induction false} SumOverZeros(s: string, a: nat, b: nat)
    requires AllMrz(s) && a <= b <= |s| && forall i | a <= i < b :: Value(s[i]).value == 0
    ensures Sum(s, b) == Sum(s, a)
  {
    if a < b { SumOverZeros(s, a, b - 1); }
  }

  /** A document without a number, born on 1 January 2000, expiring on 1 January 2030. */
  function SpecimenChar(i: nat): (c: char)
    ensures Value(c).Some?
  {
    if i == 16 || i == 18 || i == 24 || i == 26 then '1' else if i == 19 then '8' else if i == 21 then '3' else if i == 27 then '9'
    else if i == 9 || 13 <= i <= 17 || 22 <= i <= 25 || i == 43 then '0' else '<'
  }

  function Specimen(): string { seq(44, i requires i >= 0 => SpecimenChar(i)) }

  lemma SpecimenAt(a: nat, i: nat)
    requires a + 6 <= 44 && i < 6
    ensures Specimen()[a..a + 6][i] == SpecimenChar(a + i)
  {
  }

  lemma SpecimenDigits()
    ensures var s := Specimen();
            CheckMatches(s[0..9], s[9]) && CheckMatches(s[13..19], s[19]) && CheckMatches(s[21..27], s[27])
  {
    var number, birth, expiry := Specimen()[0..9], Specimen()[13..19], Specimen()[21..27];
    SumOverZeros(number, 0, 9);
    SumOverZeros(birth, 0, 3);
    assert Sum(birth, 4) == 7 && Sum(birth, 5) == 7 && Sum(birth, 6) == 8;
    assert Sum(expiry, 1) == 21;
    SumOverZeros(expiry, 1, 3);
    assert Sum(expiry, 4) == 28 && Sum(expiry, 5) == 28 && Sum(expiry, 6) == 29;
  }

  lemma SpecimenSum(c: string)
    requires |c| == 39 && forall i | 0 <= i < 39 :: c[i] == SpecimenChar(if i < 10 then i else if i < 17 then i + 3 else i + 4)
    ensures AllMrz(c) && Sum(c, 39) == 50
  {
    SumOverZeros(c, 0, 13);
    assert Sum(c, 14) == 3;
    SumOverZeros(c, 14, 15);
    assert Sum(c, 16) == 10;
    assert Sum(c, 17) == 34;
    assert Sum(c, 18) == 37;
    SumOverZeros(c, 18, 20);
    assert Sum(c, 21) == 38;
    SumOverZeros(c, 21, 22);
    assert Sum(c, 23) == 41;
    assert Sum(c, 24) == 50;
    SumOverZeros(c, 24, 39);
  }

  lemma SpecimenBirth()
    ensures var s := Specimen()[13..19]; SixDigits(s) && Two(s, 0) == 0 && Two(s, 2) == 1 && Two(s, 4) == 1
  {
    SpecimenAt(13, 0);
    SpecimenAt(13, 1);
    SpecimenAt(13, 2);
    SpecimenAt(13, 3);
    SpecimenAt(13, 4);
    SpecimenAt(13, 5);
  }

  lemma SpecimenExpiry()
    ensures var s := Specimen()[21..27]; SixDigits(s) && Two(s, 0) == 30 && Two(s, 2) == 1 && Two(s, 4) == 1
  {
    SpecimenAt(21, 0);
    SpecimenAt(21, 1);
    SpecimenAt(21, 2);
    SpecimenAt(21, 3);
    SpecimenAt(21, 4);
    SpecimenAt(21, 5);
  }

  lemma SpecimenDates(reference: Instant)
    requires reference == Instant(Date(2026, 1, 1), 0)
    ensures ExpandMrzDate(Specimen()[13..19], Birth, reference) == Some(Date(2000, 1, 1))
    ensures ExpandMrzDate(Specimen()[21..27], Expiry, reference) == Some(Date(2030, 1, 1))
  {
    SpecimenBirth();
    SpecimenExpiry();
  }

  lemma SpecimenComposite()
    ensures CheckMatches(Composite(Specimen()), Specimen()[43])
  {
    SpecimenSum(Composite(Specimen()));
  }

  /** Some documents are accepted. */
  lemma SpecimenAccepted(line1: string, reference: Instant)
    requires |line1| == 44 && line1[0] == 'P' && reference == Instant(Date(2026, 1, 1), 0)
    ensures ParseLines(line1, Specimen(), reference).Ok?
  {
    SpecimenDigits();
    SpecimenComposite();
    SpecimenDates(reference);
    AcceptedByLine(line1, Specimen(), reference);
  }

  // ------------------------------------------------------ printed and read back

  predicate NoFiller(s: string) { '<' !in s }

  function Fillers(n: nat): (s: string)
    ensures |s| == n && AllMrz(s)
  {
    seq(n, i requires 0 <= i < n => '<')
  }

  /** A field, left-justified. */
  function Padded(s: string, width: nat): (t: string)
    requires |s| <= width
    ensures |t| == width
  {
    s + Fillers(width - |s|)
  }

  lemma StrippedStep(c: char, s: string)
    ensures Stripped([c] + s) == (if c == '<' then "" else [c]) + Stripped(s)
  {
    assert ([c] + s)[1..] == s;
  }

  /** Stripping drops the fillers, wherever they stand, ... */
  lemma {:induction false} StrippedParts(s: string, t: string)
    ensures Stripped(s + t) == Stripped(s) + Stripped(t)
  {
    if s == "" {
      assert s + t == t && Stripped(s) + Stripped(t) == Stripped(t);
    } else {
      var c, rest := s[0], s[1..];
      assert s == [c] + rest && s + t == [c] + (rest + t);
      StrippedParts(rest, t);
      StrippedStep(c, rest);
      StrippedStep(c, rest + t);
      Associated(if c == '<' then "" else [c], Stripped(rest), Stripped(t));
    }
  }

  lemma Associated(a: string, b: string, c: string)
    ensures a + (b + c) == (a + b) + c
  {
  }

  /** ... and nothing else. */
  lemma {:induction false} StrippedKeeps(s: string)
    requires NoFiller(s)
    ensures Stripped(s) == s
  {
    if s != "" {
      StrippedKeeps(s[1..]);
      assert s == [s[0]] + s[1..];
    }
  }

  lemma {:induction false} StrippedFillers(n: nat)
    ensures Stripped(Fillers(n)) == ""
  {
    if n > 0 {
      StrippedFillers(n - 1);
      assert Fillers(n)[1..] == Fillers(n - 1);
    }
  }

  lemma PaddedReadsBack(s: string, width: nat)
    requires |s| <= width && NoFiller(s)
    ensures Stripped(Padded(s, width)) == s
  {
    StrippedParts(s, Fillers(width - |s|));
    StrippedKeeps(s);
    StrippedFillers(width - |s|);
    assert s + "" == s;
  }

  function Checked(s: string): (t: string)
    requires AllMrz(s)
    ensures |t| == |s| + 1 && t[..|s|] == s && CheckMatches(s, t[|s|])
  {
    s + [DigitChar(Sum(s, |s|) % 10)]
  }

  /** A document as its issuer prints it. `rest` is the name field, `optional` the optional data with its digit. */
  datatype Document = Document(code: string, state: string, rest: string, number: string, nationality: string, birth: string,
                               sex: char, expiry: string, optional: string)

  predicate Printable(d: Document, reference: Instant)
  {
    && |d.code| == 2 && d.code[0] == 'P' && |d.state| <= 3 && NoFiller(d.state) && |d.rest| == 39
    && |d.number| <= 9 && NoFiller(d.number) && AllMrz(d.number) && |d.nationality| <= 3 && NoFiller(d.nationality)
    && |d.optional| == 15 && AllMrz(d.optional)
    && ExpandMrzDate(d.birth, Birth, reference).Some? && ExpandMrzDate(d.expiry, Expiry, reference).Some?
  }

  function FirstLine(d: Document): string
    requires |d.state| <= 3
  {
    d.code + Padded(d.state, 3) + d.rest
  }

  lemma PaddedMrz(s: string, width: nat)
    requires |s| <= width && AllMrz(s)
    ensures AllMrz(Padded(s, width))
  {
  }

  /** The three covered groups of the second line: number, birth, and expiry with the optional data. */
  function NumberGroup(d: Document): (t: string)
    requires |d.number| <= 9 && AllMrz(d.number)
    ensures |t| == 10 && AllMrz(t) && t[..9] == Padded(d.number, 9) && CheckMatches(t[..9], t[9])
  {
    PaddedMrz(d.number, 9);
    Checked(Padded(d.number, 9))
  }

  function DateGroup(date: string): (t: string)
    requires SixDigits(date)
    ensures |t| == 7 && AllMrz(t) && t[..6] == date && CheckMatches(t[..6], t[6])
  {
    Checked(date)
  }

  function SecondLine(d: Document, reference: Instant): (line: string)
    requires Printable(d, reference)
    ensures |line| == TD3_LINE_LENGTH
  {
    var number, birth, expiry := NumberGroup(d), DateGroup(d.birth), DateGroup(d.expiry);
    number + Padded(d.nationality, 3) + birth + [d.sex] + expiry + d.optional
    + [DigitChar(Sum(number + birth + (expiry + d.optional), 39) % 10)]
  }

  lemma SecondLineParts(d: Document, reference: Instant)
    requires Printable(d, reference)
    ensures var line := SecondLine(d, reference);
            && line[0..10] == NumberGroup(d) && line[10..13] == Padded(d.nationality, 3) && line[13..20] == DateGroup(d.birth)
            && line[20] == d.sex && line[21..28] == DateGroup(d.expiry) && line[28..43] == d.optional
  {
  }

  lemma SecondLineComposite(d: Document, reference: Instant)
    requires Printable(d, reference)
    ensures CheckMatches(Composite(SecondLine(d, reference)), SecondLine(d, reference)[43])
  {
    SecondLineParts(d, reference);
    var line := SecondLine(d, reference);
    var c := NumberGroup(d) + DateGroup(d.birth) + (DateGroup(d.expiry) + d.optional);
    assert line[21..43] == line[21..28] + line[28..43];
    assert Composite(line) == c;
    assert line[43] == DigitChar(Sum(c, 39) % 10);
  }

  lemma SecondLineChecks(d: Document, reference: Instant)
    requires Printable(d, reference)
    ensures var line := SecondLine(d, reference);
            && line[0..9] == Padded(d.number, 9) && CheckMatches(line[0..9], line[9])
            && line[13..19] == d.birth && CheckMatches(line[13..19], line[19])
            && line[21..27] == d.expiry && CheckMatches(line[21..27], line[27])
  {
    SecondLineParts(d, reference);
    var line := SecondLine(d, reference);
    Sliced(line, 0, 10);
    Sliced(line, 13, 20);
    Sliced(line, 21, 28);
  }

  lemma Sliced(line: string, a: nat, b: nat)
    requires a < b <= |line|
    ensures line[a..b][..b - a - 1] == line[a..b - 1] && line[a..b][b - a - 1] == line[b - 1]
  {
  }

  /** Whatever document is printed with its check digits is read back field by field: a missing nationality as the
      issuing state, and a sex that is neither M nor F as unspecified. */
  lemma PrintedIsReadBack(d: Document, reference: Instant)
    requires Printable(d, reference)
    ensures ParseTd3([FirstLine(d), SecondLine(d, reference)], reference)
            == Ok(Record(d.state, d.number, if d.nationality == "" then d.state else d.nationality, d.birth, d.expiry,
                         match d.sex case 'M' => M case 'F' => F case _ => X))
  {
    var line1, line2 := FirstLine(d), SecondLine(d, reference);
    SecondLineChecks(d, reference);
    SecondLineComposite(d, reference);
    SecondLineParts(d, reference);
    PaddedReadsBack(d.state, 3);
    PaddedReadsBack(d.number, 9);
    PaddedReadsBack(d.nationality, 3);
    assert line1[0] == 'P' && line1[2..5] == Padded(d.state, 3);
  }

  /** What the two lines of a document hold, given its left-justified fields. */
  function DocumentOf(line1: string, line2: string, state: string, number: string, nationality: string): Document
    requires |line1| == |line2| == TD3_LINE_LENGTH
  {
    Document(line1[..2], state, line1[5..], number, nationality, line2[13..19], line2[20], line2[21..27], line2[28..43])
  }

  predicate LeftJustified(line1: string, line2: string, state: string, number: string, nationality: string)
    requires |line1| == |line2| == TD3_LINE_LENGTH
  {
    && |state| <= 3 && NoFiller(state) && line1[2..5] == Padded(state, 3)
    && |number| <= 9 && NoFiller(number) && line2[0..9] == Padded(number, 9)
    && |nationality| <= 3 && NoFiller(nationality) && line2[10..13] == Padded(nationality, 3)
  }

  lemma MrzOfPadded(s: string, width: nat)
    requires |s| <= width && AllMrz(Padded(s, width))
    ensures AllMrz(s)
  {
    forall i | 0 <= i < |s| ensures Value(s[i]).Some? { assert Padded(s, width)[i] == s[i]; }
  }

  lemma AcceptedIsPrintable(line1: string, line2: string, state: string, number: string, nationality: string, reference: Instant)
    requires |line1| == |line2| == TD3_LINE_LENGTH && line1[0] == 'P' && LineAccepted(line2, reference)
    requires LeftJustified(line1, line2, state, number, nationality)
    ensures Printable(DocumentOf(line1, line2, state, number, nationality), reference)
  {
    MrzOfPadded(number, 9);
    forall i | 0 <= i < 15 ensures Value(line2[28..43][i]).Some? { assert Composite(line2)[24 + i] == line2[28 + i]; }
  }

  lemma MatchingIsChecked(s: string, c: char)
    requires CheckMatches(s, c)
    ensures Checked(s) == s + [c]
  {
  }

  lemma SameGroups(line2: string, number: string, birth: string, expiry: string)
    requires |line2| == TD3_LINE_LENGTH && number == line2[0..9] && birth == line2[13..19] && expiry == line2[21..27]
    ensures line2[0..10] == number + [line2[9]] && line2[13..20] == birth + [line2[19]] && line2[21..28] == expiry + [line2[27]]
    ensures Composite(line2) == line2[0..10] + line2[13..20] + (line2[21..28] + line2[28..43])
    ensures line2 == line2[0..10] + line2[10..13] + line2[13..20] + [line2[20]] + line2[21..28] + line2[28..43] + [line2[43]]
  {
  }

  /** And every accepted pair of lines with left-justified fields is the print of a document, its own. */
  lemma AcceptedIsPrinted(line1: string, line2: string, state: string, number: string, nationality: string, reference: Instant)
    requires ParseTd3([line1, line2], reference).Ok? && LeftJustified(line1, line2, state, number, nationality)
    ensures var d := DocumentOf(line1, line2, state, number, nationality);
            Printable(d, reference) && FirstLine(d) == line1 && SecondLine(d, reference) == line2
  {
    AcceptedByLine(line1, line2, reference);
    AcceptedIsPrintable(line1, line2, state, number, nationality, reference);
    var d := DocumentOf(line1, line2, state, number, nationality);
    SameGroups(line2, line2[0..9], d.birth, d.expiry);
    MatchingIsChecked(line2[0..9], line2[9]);
    MatchingIsChecked(d.birth, line2[19]);
    MatchingIsChecked(d.expiry, line2[27]);
    MatchingIsChecked(Composite(line2), line2[43]);
    assert line1 == line1[..2] + line1[2..5] + line1[5..];
  }

  // -------------------------------------------------------------- eligibility

  datatype Eligibility = Eligibility(country: string, isAdult: bool, isExpired: bool)

  function ToEligibility(record: Record, reference: Instant, adultAge: int): Option<Eligibility>
  {
    var birth := ExpandMrzDate(record.birthDate, Birth, reference);
    var expiry := ExpandMrzDate(record.expiryDate, Expiry, reference);
    if birth.None? || expiry.None? then None
    else Some(Eligibility(record.nationality, YearsBetween(birth.value, reference.date) >= adultAge,
                          InstantBefore(Instant(expiry.value, 0), reference)))
  }

  /** A document accepted at some instant has an eligibility at that instant: adult exactly when the birthday
      has come round `adultAge` times, expired from the first millisecond after its expiry day began. */
  lemma AcceptedHasEligibility(lines: seq<string>, reference: Instant, adultAge: int)
    requires ParseTd3(lines, reference).Ok?
    ensures var record := ParseTd3(lines, reference).record;
            var e := ToEligibility(record, reference, adultAge);
            && e.Some? && e.value.country == record.nationality
            && exists birth, expiry ::
                 && ExpandMrzDate(record.birthDate, Birth, reference) == Some(birth)
                 && ExpandMrzDate(record.expiryDate, Expiry, reference) == Some(expiry)
                 && (e.value.isAdult <==> !DateBefore(reference.date, birth.(year := birth.year + adultAge)))
                 && (e.value.isExpired <==> DateBefore(expiry, reference.date) || (expiry == reference.date && reference.ms > 0))
  {
    var record := ParseTd3(lines, reference).record;
    var birth := ExpandMrzDate(record.birthDate, Birth, reference).value;
    BirthdaysCounted(birth, reference.date, adultAge);
  }
}
