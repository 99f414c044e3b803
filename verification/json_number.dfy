/** Numbers of RFC 8259, section 6, and the index loop that recognises them. */
module JsonNumber {
  import opened Bytes

  predicate IsDigit(c: Byte) {
    '0' <= c <= '9'
  }

  predicate IsNonzeroDigit(c: Byte) {
    '1' <= c <= '9'
  }

  predicate IsNumberByte(c: Byte) {
    IsDigit(c) || c == '-' || c == '+' || c == '.' || c == 'e' || c == 'E'
  }

  // ---- the grammar -------------------------------------------------------------------------

  ghost predicate AllDigits(s: seq<Byte>) {
    forall i :: 0 <= i < |s| ==> IsDigit(s[i])
  }

  /** int = zero / ( digit1-9 *DIGIT ) */
  ghost predicate IsInt(s: seq<Byte>) {
    s == "0" || (s != [] && IsNonzeroDigit(s[0]) && AllDigits(s))
  }

  /** frac = decimal-point 1*DIGIT, and it is optional */
  ghost predicate IsOptFrac(s: seq<Byte>) {
    s == [] || (|s| >= 2 && s[0] == '.' && AllDigits(s[1..]))
  }

  /** exp = e [ minus / plus ] 1*DIGIT, and it is optional */
  ghost predicate IsOptExp(s: seq<Byte>) {
    s == [] ||
    (|s| >= 2 && (s[0] == 'e' || s[0] == 'E') &&
     ((s[1] != '+' && s[1] != '-' && AllDigits(s[1..])) ||
      ((s[1] == '+' || s[1] == '-') && |s| >= 3 && AllDigits(s[2..]))))
  }

  /** number = [ minus ] int [ frac ] [ exp ] */
  ghost predicate NumberParts(text: seq<Byte>, minus: seq<Byte>, int_: seq<Byte>, frac: seq<Byte>, exp: seq<Byte>) {
    && text == minus + int_ + frac + exp
    && (minus == [] || minus == "-")
    && IsInt(int_) && IsOptFrac(frac) && IsOptExp(exp)
  }

  ghost predicate IsNumber(text: seq<Byte>) {
    exists minus, int_, frac, exp :: NumberParts(text, minus, int_, frac, exp)
  }

  // ---- the recogniser ----------------------------------------------------------------------

  /** The end of the run of digits that starts at `i`. */
  function DigitsEnd(text: seq<Byte>, i: nat): (e: nat)
    requires i <= |text|
    ensures i <= e <= |text|
    decreases |text| - i
  {
    if i < |text| && IsDigit(text[i]) then DigitsEnd(text, i + 1) else i
  }

  lemma {:induction false} DigitsEndStops(text: seq<Byte>, i: nat)
    requires i <= |text|
    ensures AllDigits(text[i..DigitsEnd(text, i)])
    decreases |text| - i
  {
    if i < |text| && IsDigit(text[i]) {
      DigitsEndStops(text, i + 1);
      assert text[i..DigitsEnd(text, i)] == [text[i]] + text[i + 1..DigitsEnd(text, i)];
    }
  }

  lemma {:induction false} DigitsEndIs(text: seq<Byte>, i: nat, e: nat)
    requires i <= e <= |text| && AllDigits(text[i..e]) && (e < |text| ==> !IsDigit(text[e]))
    ensures DigitsEnd(text, i) == e
    decreases e - i
  {
    if i < e {
      assert text[i] == text[i..e][0];
      assert text[i + 1..e] == text[i..e][1..];
      DigitsEndIs(text, i + 1, e);
    }
  }

  function IntEnd(text: seq<Byte>, i: nat): (e: Option<nat>)
    requires i <= |text|
    ensures e.Some? ==> i < e.value <= |text|
  {
    if i == |text| then None
    else if text[i] == '0' then Some(i + 1)
    else if IsNonzeroDigit(text[i]) then Some(DigitsEnd(text, i + 1))
    else None
  }

  /** End of the digits from `i` on, of which there must be one. */
  function SomeDigitsEnd(text: seq<Byte>, i: nat): (e: Option<nat>)
    requires i <= |text|
    ensures e.Some? ==> i < e.value <= |text|
  {
    if i == |text| || !IsDigit(text[i]) then None else Some(DigitsEnd(text, i))
  }

  function FracEnd(text: seq<Byte>, i: nat): (e: Option<nat>)
    requires i <= |text|
    ensures e.Some? ==> i <= e.value <= |text|
  {
    if i < |text| && text[i] == '.' then SomeDigitsEnd(text, i + 1) else Some(i)
  }

  function ExpEnd(text: seq<Byte>, i: nat): (e: Option<nat>)
    requires i <= |text|
    ensures e.Some? ==> i <= e.value <= |text|
  {
    if i < |text| && (text[i] == 'e' || text[i] == 'E') then
      SomeDigitsEnd(text, if i + 1 < |text| && (text[i + 1] == '+' || text[i + 1] == '-') then i + 2 else i + 1)
    else Some(i)
  }

  predicate Accepts(text: seq<Byte>) {
    var m: nat := if text != [] && text[0] == '-' then 1 else 0;
    var e1 := IntEnd(text, m);
    if e1.None? then false else
      var e2 := FracEnd(text, e1.value);
      if e2.None? then false else ExpEnd(text, e2.value) == Some(|text|)
  }

  // Each part of the recogniser stops at e exactly when the slice up to e is that part of the grammar.

  lemma {:induction false} IntPart(text: seq<Byte>, i: nat, e: nat)
    requires i <= |text| && IntEnd(text, i) == Some(e)
    ensures IsInt(text[i..e])
  {
    if text[i] == '0' {
      assert text[i..e] == "0";
    } else {
      DigitsEndStops(text, i + 1);
      assert text[i..e] == [text[i]] + text[i + 1..e];
    }
  }

  lemma {:induction false} FracPart(text: seq<Byte>, i: nat, e: nat)
    requires i <= |text| && FracEnd(text, i) == Some(e)
    ensures IsOptFrac(text[i..e])
  {
    if i < e {
      DigitsEndStops(text, i + 1);
      assert text[i..e][1..] == text[i + 1..e];
    }
  }

  lemma {:induction false} ExpPart(text: seq<Byte>, i: nat)
    requires i <= |text| && ExpEnd(text, i) == Some(|text|)
    ensures IsOptExp(text[i..])
  {
    if i < |text| {
      var s := text[i..];
      assert s[1] == text[i + 1];
      if s[1] == '+' || s[1] == '-' {
        DigitsEndStops(text, i + 2);
        assert s[2..] == text[i + 2..|text|];
      } else {
        DigitsEndStops(text, i + 1);
        assert s[1..] == text[i + 1..|text|];
      }
    }
  }

  lemma {:induction false} IntEndIs(text: seq<Byte>, i: nat, e: nat)
    requires i <= e <= |text| && IsInt(text[i..e]) && (e < |text| ==> !IsDigit(text[e]))
    ensures IntEnd(text, i) == Some(e)
  {
    assert text[i] == text[i..e][0];
    if text[i..e] != "0" {
      assert text[i + 1..e] == text[i..e][1..];
      DigitsEndIs(text, i + 1, e);
    }
  }

  lemma {:induction false} FracEndIs(text: seq<Byte>, i: nat, e: nat)
    requires i <= e <= |text| && IsOptFrac(text[i..e]) && (e < |text| ==> !IsDigit(text[e]) && text[e] != '.')
    ensures FracEnd(text, i) == Some(e)
  {
    if i < e {
      assert text[i] == text[i..e][0];
      assert text[i + 1..e] == text[i..e][1..];
      assert text[i + 1] == text[i..e][1..][0];
      DigitsEndIs(text, i + 1, e);
    }
  }

  lemma RestOfRest(text: seq<Byte>, i: nat, d: nat)
    requires i + d <= |text|
    ensures text[i + d..|text|] == text[i..][d..]
  {
  }

  lemma {:induction false} ExpEndIs(text: seq<Byte>, i: nat)
    requires i <= |text| && IsOptExp(text[i..])
    ensures ExpEnd(text, i) == Some(|text|)
  {
    if i < |text| {
      var s := text[i..];
      assert text[i] == s[0] && text[i + 1] == s[1];
      var d := if s[1] == '+' || s[1] == '-' then 2 else 1;
      RestOfRest(text, i, d);
      assert text[i + d] == s[d..][0];
      DigitsEndIs(text, i + d, |text|);
    }
  }

  lemma CutInFour(text: seq<Byte>, m: nat, i: nat, f: nat)
    requires m <= i <= f <= |text|
    ensures text == text[..m] + text[m..i] + text[i..f] + text[f..]
  {
  }

  lemma {:induction false} AcceptsOnlyNumbers(text: seq<Byte>)
    requires Accepts(text)
    ensures IsNumber(text)
  {
    var m: nat := if text[0] == '-' then 1 else 0;
    var i := IntEnd(text, m).value;
    var f := FracEnd(text, i).value;
    IntPart(text, m, i);
    FracPart(text, i, f);
    ExpPart(text, f);
    CutInFour(text, m, i, f);
    assert NumberParts(text, text[..m], text[m..i], text[i..f], text[f..]);
  }

  lemma {:induction false} AcceptsAllNumbers(text: seq<Byte>, minus: seq<Byte>, int_: seq<Byte>,
                                             frac: seq<Byte>, exp: seq<Byte>)
    requires NumberParts(text, minus, int_, frac, exp)
    ensures Accepts(text)
  {
    var m := |minus|;
    var i := m + |int_|;
    var f := i + |frac|;
    assert text[m..i] == int_ && text[i..f] == frac && text[f..] == exp;
    assert text[m] == int_[0];
    assert text[0] == '-' <==> m == 1;
    assert f < |text| ==> text[f] == exp[0];
    assert i < f ==> text[i] == frac[0];
    IntEndIs(text, m, i);
    FracEndIs(text, i, f);
    ExpEndIs(text, f);
  }

  /** The recogniser and the grammar agree on every byte string. */
  lemma {:induction false} AcceptsExactlyNumbers(text: seq<Byte>)
    ensures Accepts(text) <==> IsNumber(text)
  {
    if Accepts(text) {
      AcceptsOnlyNumbers(text);
    }
    if IsNumber(text) {
      var minus, int_, frac, exp :| NumberParts(text, minus, int_, frac, exp);
      AcceptsAllNumbers(text, minus, int_, frac, exp);
    }
  }

  /** Numbers are made of number bytes and start with a minus sign or a digit. */
  lemma {:induction false} NumberBytes(text: seq<Byte>)
    requires IsNumber(text)
    ensures text != [] && (text[0] == '-' || IsDigit(text[0]))
    ensures forall k :: 0 <= k < |text| ==> IsNumberByte(text[k])
  {
    var minus, int_, frac, exp :| NumberParts(text, minus, int_, frac, exp);
    forall k | 0 <= k < |frac| ensures IsNumberByte(frac[k]) {
      if k > 0 { assert frac[k] == frac[1..][k - 1]; }
    }
    forall k | 0 <= k < |exp| ensures IsNumberByte(exp[k]) {
      if k > 1 { assert exp[k] == exp[1..][k - 1] == exp[2..][k - 2]; }
      if k == 1 { assert exp[k] == exp[1..][0]; }
    }
  }

  // ---- the method --------------------------------------------------------------------------

  method SkipDigits(text: seq<Byte>, start: nat) returns (i: nat)
    requires start <= |text|
    ensures i == DigitsEnd(text, start)
  {
    i := start;
    while i < |text| && IsDigit(text[i])
      invariant start <= i <= |text|
      invariant DigitsEnd(text, i) == DigitsEnd(text, start)
    {
      i := i + 1;
    }
  }

  /** The integer part of `valid_number`. */
  method ScanInt(text: seq<Byte>, start: nat) returns (i: Option<nat>)
    requires start < |text|
    ensures i == IntEnd(text, start)
  {
    if text[start] == '0' {
      return Some(start + 1);
    } else if IsNonzeroDigit(text[start]) {
      var e := SkipDigits(text, start);
      return Some(e);
    }
    return None;
  }

  /** At least one digit, as after the point and after the exponent's sign. */
  method ScanDigits(text: seq<Byte>, start: nat) returns (i: Option<nat>)
    requires start <= |text|
    ensures i == SomeDigitsEnd(text, start)
  {
    if start == |text| || !IsDigit(text[start]) {
      return None;
    }
    var e := SkipDigits(text, start);
    return Some(e);
  }

  /** `valid_number`: true exactly on the numbers of the grammar. */
  method ValidNumber(text: seq<Byte>) returns (ok: bool)
    ensures ok <==> IsNumber(text)
  {
    AcceptsExactlyNumbers(text);
    if |text| == 0 {
      return false;
    }
    var i: Option<nat> := Some(0);
    if text[0] == '-' {
      i := Some(1);
      if |text| == 1 {
        return false;
      }
    }
    i := ScanInt(text, i.value);
    if i.Some? && i.value < |text| && text[i.value] == '.' {
      i := ScanDigits(text, i.value + 1);
    }
    if i.Some? && i.value < |text| && (text[i.value] == 'e' || text[i.value] == 'E') {
      var j := i.value + 1;
      if j < |text| && (text[j] == '+' || text[j] == '-') {
        j := j + 1;
      }
      i := ScanDigits(text, j);
    }
    return i == Some(|text|);
  }
}
